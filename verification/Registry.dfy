/**
 The sheet registry of sheet.go: the list of sheets, the workbook relationships, the content-type
 overrides and the name-to-path map, which NewSheet, DeleteSheet and SetSheetName keep in step.
 */
module Registry {
  import opened Wrappers
  import opened Text
  import opened AdjustSpec

  datatype SheetEntry = SheetEntry(Name: string, SheetID: int, ID: string)

  datatype Relation = Relation(ID: string, Target: string)

  datatype Book = Book(
    sheets: seq<SheetEntry>,
    rels: seq<Relation>,
    overrides: seq<string>,
    sheetMap: map<string, string>,
    sheetCount: int)

  // ---------- names and numbers

  function TrimPrefix(s: string, prefix: string): (t: string) {
    if prefix <= s then s[|prefix|..] else s
  }

  function TrimSuffix(s: string, suffix: string): (t: string) {
    if |suffix| <= |s| && s[|s| - |suffix|..] == suffix then s[..|s| - |suffix|] else s
  }

  /** strconv.Atoi with its error dropped. */
  function AtoiOrZero(s: string): (n: int) {
    match Atoi(s) case Some(n) => n case None => 0
  }

  const SHEET_PREFIX := "worksheets/sheet"
  const XML_SUFFIX := ".xml"
  const REL_PREFIX := "rId"

  function SheetTarget(id: nat): (target: string) { SHEET_PREFIX + Itoa(id) + XML_SUFFIX }

  function SheetPath(id: nat): (path: string) { "xl/" + SheetTarget(id) }

  function PartName(target: string): (part: string) { "/xl/" + target }

  function RelID(n: nat): (id: string) { REL_PREFIX + Itoa(n) }

  function TargetNumber(target: string): (n: int) {
    AtoiOrZero(TrimSuffix(TrimPrefix(target, SHEET_PREFIX), XML_SUFFIX))
  }

  function RelNumber(id: string): (n: int) { AtoiOrZero(TrimPrefix(id, REL_PREFIX)) }

  predicate Forbidden(c: char) {
    c == ':' || c == '\\' || c == '/' || c == '?' || c == '*' || c == '[' || c == ']'
  }

  const MAX_NAME := 31

  /** The loop of trimSheetName: allowed characters are kept until there are 31. */
  function KeepAllowed(name: string, kept: string): (trimmed: string) {
    if name == [] || |kept| == MAX_NAME then kept
    else KeepAllowed(name[1..], if Forbidden(name[0]) then kept else kept + [name[0]])
  }

  function TrimSheetName(name: string): (trimmed: string) {
    if (exists i :: 0 <= i < |name| && Forbidden(name[i])) || |name| > MAX_NAME then KeepAllowed(name, "") else name
  }

  predicate AllowedName(name: string) {
    |name| <= MAX_NAME && forall i :: 0 <= i < |name| ==> !Forbidden(name[i])
  }

  lemma {:induction false} KeepAllowedResult(name: string, kept: string)
    requires AllowedName(kept)
    ensures AllowedName(KeepAllowed(name, kept))
  {
    if name != [] && |kept| != MAX_NAME {
      KeepAllowedResult(name[1..], if Forbidden(name[0]) then kept else kept + [name[0]]);
    }
  }

  /** The test by code point and the test against a string of characters forbid the same. */
  lemma ForbiddenIs(c: char)
    ensures Forbidden(c) <==> c in ":\\/?*[]"
    ensures Forbidden(c) <==> c as int in [58, 92, 47, 63, 42, 91, 93]
  {
  }

  /** The allowed characters of a name, in order. */
  function Allowed(name: string): (kept: string)
    ensures |kept| <= |name|
  {
    if name == [] then [] else (if Forbidden(name[0]) then [] else [name[0]]) + Allowed(name[1..])
  }

  /** A name cut to 31 characters. */
  function Cut(name: string): (cut: string) { if |name| <= MAX_NAME then name else name[..MAX_NAME] }

  lemma AllowedStep(name: string, kept: string)
    requires name != []
    ensures kept + Allowed(name) ==
            (if Forbidden(name[0]) then kept else kept + [name[0]]) + Allowed(name[1..])
  {
    hide Forbidden;
    var rest := Allowed(name[1..]);
    assert [] + rest == rest;
    assert kept + ([name[0]] + rest) == (kept + [name[0]]) + rest;
  }

  lemma CutFull(kept: string, rest: string)
    ensures |kept| == MAX_NAME || (rest == [] && |kept| <= MAX_NAME) ==> Cut(kept + rest) == kept
  {
    if rest == [] { assert kept + rest == kept; }
  }

  lemma {:induction false} KeepsFirst(name: string, kept: string)
    requires |kept| <= MAX_NAME
    ensures KeepAllowed(name, kept) == Cut(kept + Allowed(name))
    decreases |name|
  {
    hide Forbidden, Cut;
    CutFull(kept, Allowed(name));
    if name != [] && |kept| != MAX_NAME {
      AllowedStep(name, kept);
      KeepsFirst(name[1..], if Forbidden(name[0]) then kept else kept + [name[0]]);
    }
  }

  lemma {:induction false} AllAllowed(name: string)
    ensures (forall i :: 0 <= i < |name| ==> !Forbidden(name[i])) ==> Allowed(name) == name
  {
    hide Forbidden;
    if name != [] && forall i :: 0 <= i < |name| ==> !Forbidden(name[i]) {
      assert forall i :: 0 <= i < |name[1..]| ==> name[1..][i] == name[i + 1];
      AllAllowed(name[1..]);
      assert !Forbidden(name[0]);
    }
  }

  /** Trimming keeps the first 31 allowed characters, in order, and nothing else. */
  lemma TrimKeepsFirst(name: string)
    ensures var all := Allowed(name); TrimSheetName(name) == if |all| <= 31 then all else all[..31]
  {
    hide Forbidden;
    KeepsFirst(name, "");
    AllAllowed(name);
    assert "" + Allowed(name) == Allowed(name);
  }

  /** Trimmed names have at most 31 allowed characters, and trimming again changes nothing. */
  lemma TrimIdempotent(name: string)
    ensures AllowedName(TrimSheetName(name)) && TrimSheetName(TrimSheetName(name)) == TrimSheetName(name)
    ensures TrimSheetName(name) == name <==> AllowedName(name)
  {
    KeepAllowedResult(name, "");
  }

  lemma TargetNumberOf(id: nat)
    ensures TargetNumber(SheetTarget(id)) == id
  {
    var s := SheetTarget(id);
    assert SHEET_PREFIX <= s && s[|SHEET_PREFIX|..] == Itoa(id) + XML_SUFFIX;
    var t := Itoa(id) + XML_SUFFIX;
    assert t[|t| - |XML_SUFFIX|..] == XML_SUFFIX && t[..|t| - |XML_SUFFIX|] == Itoa(id);
    AtoiItoa(id);
  }

  lemma RelNumberOf(n: nat)
    ensures RelNumber(RelID(n)) == n
  {
    assert REL_PREFIX <= RelID(n) && RelID(n)[|REL_PREFIX|..] == Itoa(n);
    AtoiItoa(n);
  }

  lemma TargetsDiffer(a: nat, b: nat)
    ensures SheetTarget(a) == SheetTarget(b) <==> a == b
    ensures PartName(SheetTarget(a)) == PartName(SheetTarget(b)) <==> a == b
  {
    TargetNumberOf(a);
    TargetNumberOf(b);
    assert PartName(SheetTarget(a))[4..] == SheetTarget(a) && PartName(SheetTarget(b))[4..] == SheetTarget(b);
  }

  // ---------- look-ups

  /** The first relationship with that id, from the k-th on, or -1. */
  function RelFrom(rels: seq<Relation>, k: nat, id: string): (i: int)
    requires k <= |rels|
    ensures i == -1 || k <= i < |rels|
    ensures i >= 0 ==> rels[i].ID == id
    ensures forall j :: k <= j < (if i < 0 then |rels| else i) ==> rels[j].ID != id
    decreases |rels| - k
  {
    if k == |rels| then -1 else if rels[k].ID == id then k else RelFrom(rels, k + 1, id)
  }

  function SheetIndexFrom(b: Book, i: nat, name: string): (index: int)
    requires i <= |b.sheets|
    decreases |b.sheets| - i
  {
    if i == |b.sheets| then 0
    else
      var k := if b.sheets[i].Name == name then RelFrom(b.rels, 0, b.sheets[i].ID) else -1;
      if k >= 0 then TargetNumber(b.rels[k].Target) else SheetIndexFrom(b, i + 1, name)
  }

  function GetSheetIndex(b: Book, name: string): (index: int) { SheetIndexFrom(b, 0, name) }

  /** The first sheet with that relationship id, from the i-th on, or -1. */
  function SheetWithRel(sheets: seq<SheetEntry>, i: nat, id: string): (k: int)
    requires i <= |sheets|
    ensures k == -1 || i <= k < |sheets|
    ensures k >= 0 ==> sheets[k].ID == id
    ensures forall j :: i <= j < (if k < 0 then |sheets| else k) ==> sheets[j].ID != id
    decreases |sheets| - i
  {
    if i == |sheets| then -1 else if sheets[i].ID == id then i else SheetWithRel(sheets, i + 1, id)
  }

  function SheetNameFrom(b: Book, k: nat, index: int): (name: string)
    requires k <= |b.rels|
    decreases |b.rels| - k
  {
    if k == |b.rels| then ""
    else
      var i := if TargetNumber(b.rels[k].Target) == index then SheetWithRel(b.sheets, 0, b.rels[k].ID) else -1;
      if i >= 0 then b.sheets[i].Name else SheetNameFrom(b, k + 1, index)
  }

  function GetSheetName(b: Book, index: int): (name: string) { SheetNameFrom(b, 0, index) }

  // ---------- operations

  function MaxSheetID(sheets: seq<SheetEntry>): (m: nat)
    ensures forall i :: 0 <= i < |sheets| ==> sheets[i].SheetID <= m
  {
    if sheets == [] then 0
    else
      var m := MaxSheetID(sheets[..|sheets| - 1]);
      if sheets[|sheets| - 1].SheetID > m then sheets[|sheets| - 1].SheetID else m
  }

  function MaxRelNumber(rels: seq<Relation>): (m: nat) {
    hide RelNumber;
    if rels == [] then 0
    else
      var m := MaxRelNumber(rels[..|rels| - 1]);
      if RelNumber(rels[|rels| - 1].ID) > m then RelNumber(rels[|rels| - 1].ID) else m
  }

  /** deleteSheetFromWorkbookRels: the first match goes; its target is returned. */
  function DeleteRel(rels: seq<Relation>, id: string): (result: (seq<Relation>, string)) {
    var k := RelFrom(rels, 0, id);
    if k < 0 then (rels, "") else (rels[..k] + rels[k + 1..], rels[k].Target)
  }

  /** deleteSheetFromContentTypes from iteration i: it deletes from the slice it ranges over; None is a panic. */
  function DropOverrides(store: seq<string>, len: nat, i: nat, part: string): (left: Option<seq<string>>)
    requires len <= |store| && i <= |store|
    decreases |store| - i
  {
    if i == |store| then Some(store[..len])
    else if store[i] != part then DropOverrides(store, len, i + 1, part)
    else if i >= len then None
    else DropOverrides(Delete(store, len, i), len - 1, i + 1, part)
  }

  /** The loop of DeleteSheet from iteration i, ranging over the original slice of sheets; None is a panic. */
  function DeleteLoop(b: Book, store: seq<SheetEntry>, len: nat, i: nat, name: string): (result: Option<Book>)
    requires len <= |store| && i <= |store|
    decreases |store| - i
  {
    if i == |store| then Some(b.(sheets := store[..len]))
    else if store[i].Name != TrimSheetName(name) || len <= 1 then DeleteLoop(b, store, len, i + 1, name)
    else if i >= len then None
    else
      var (rels, target) := DeleteRel(b.rels, store[i].ID);
      match DropOverrides(b.overrides, |b.overrides|, 0, PartName(target))
      case None => None
      case Some(overrides) =>
        var b' := b.(rels := rels, overrides := overrides, sheetMap := b.sheetMap - {name}, sheetCount := b.sheetCount - 1);
        DeleteLoop(b', Delete(store, len, i), len - 1, i + 1, name)
  }

  function DeleteSheet(b: Book, name: string): (result: Option<Book>) {
    DeleteLoop(b, b.sheets, |b.sheets|, 0, name)
  }

  /** The part of NewSheet after the checks. */
  function AddSheet(b: Book, name: string): (b': Book) {
    var id := MaxSheetID(b.sheets) + 1;
    var rid := MaxRelNumber(b.rels) + 1;
    Book(b.sheets + [SheetEntry(TrimSheetName(name), id, RelID(rid))],
         b.rels + [Relation(RelID(rid), SheetTarget(id))],
         b.overrides + [PartName(SheetTarget(id))],
         b.sheetMap[TrimSheetName(name) := SheetPath(id)],
         b.sheetCount + 1)
  }

  /** NewSheet: the result is the sheet count for a known name, and the new id otherwise. */
  function NewSheet(b: Book, name: string): (result: Option<(Book, int)>) {
    if GetSheetIndex(b, name) != 0 then Some((b, b.sheetCount))
    else
      match DeleteSheet(b, name)
      case None => None
      case Some(b') => Some((AddSheet(b', name), MaxSheetID(b'.sheets) + 1))
  }

  /** The loop of SetSheetName from sheet i on. */
  function RenameFrom(b: Book, i: nat, old_: string, new_: string): (b': Book)
    requires i <= |b.sheets|
    decreases |b.sheets| - i
  {
    if i == |b.sheets| then b
    else if b.sheets[i].Name != old_ then RenameFrom(b, i + 1, old_, new_)
    else
      var path := if old_ in b.sheetMap then b.sheetMap[old_] else "";
      RenameFrom(b.(sheets := b.sheets[i := b.sheets[i].(Name := new_)],
                    sheetMap := b.sheetMap[new_ := path] - {old_}), i + 1, old_, new_)
  }

  function SetSheetName(b: Book, oldName: string, newName: string): (b': Book) {
    RenameFrom(b, 0, TrimSheetName(oldName), TrimSheetName(newName))
  }

  // ---------- what every step keeps

  predicate HasName(sheets: seq<SheetEntry>, name: string) {
    exists i :: 0 <= i < |sheets| && sheets[i].Name == name
  }

  predicate HasID(sheets: seq<SheetEntry>, id: int) {
    exists i :: 0 <= i < |sheets| && sheets[i].SheetID == id
  }

  /** The sheet's relationship, override and path all carry its number. */
  predicate Linked(b: Book, v: SheetEntry) {
    && v.SheetID >= 1 && AllowedName(v.Name)
    && RelFrom(b.rels, 0, v.ID) >= 0
    && b.rels[RelFrom(b.rels, 0, v.ID)].Target == SheetTarget(v.SheetID)
    && PartName(SheetTarget(v.SheetID)) in b.overrides
    && v.Name in b.sheetMap && b.sheetMap[v.Name] == SheetPath(v.SheetID)
  }

  predicate DistinctSheets(sheets: seq<SheetEntry>) {
    forall i, j :: 0 <= i < j < |sheets| ==> sheets[i].Name != sheets[j].Name && sheets[i].SheetID != sheets[j].SheetID
  }

  predicate DistinctRels(rels: seq<Relation>) {
    forall i, j :: 0 <= i < j < |rels| ==> rels[i].ID != rels[j].ID
  }

  predicate DistinctParts(parts: seq<string>) {
    forall i, j :: 0 <= i < j < |parts| ==> parts[i] != parts[j]
  }

  predicate AllLinked(b: Book) {
    forall i :: 0 <= i < |b.sheets| ==> Linked(b, b.sheets[i])
  }

  /** Every sheet override belongs to a sheet. */
  ghost predicate PartsKnown(parts: seq<string>, sheets: seq<SheetEntry>) {
    forall id: nat :: PartName(SheetTarget(id)) in parts ==> HasID(sheets, id)
  }

  /** Every path is a sheet's. */
  ghost predicate PathsKnown(sheetMap: map<string, string>, sheets: seq<SheetEntry>) {
    forall name :: name in sheetMap ==> HasName(sheets, name)
  }

  ghost predicate Good(b: Book) {
    && b.sheetCount == |b.sheets| >= 1
    && AllLinked(b)
    && DistinctSheets(b.sheets)
    && DistinctRels(b.rels)
    && DistinctParts(b.overrides)
    && PartsKnown(b.overrides, b.sheets)
    && PathsKnown(b.sheetMap, b.sheets)
  }

  /** The workbook of NewFile, from the templates. */
  const NEW_FILE := Book(
    [SheetEntry("Sheet1", 1, RelID(1))],
    [Relation(RelID(1), SheetTarget(1)), Relation(RelID(2), "styles.xml"), Relation(RelID(3), "theme/theme1.xml")],
    ["/xl/theme/theme1.xml", "/xl/styles.xml", "/xl/workbook.xml", "/docProps/app.xml", PartName(SheetTarget(1)),
     "/docProps/core.xml"],
    map["Sheet1" := SheetPath(1)],
    1)

  // ---------- looking up is consistent

  lemma LinkedSheet(b: Book, k: nat)
    requires AllLinked(b) && k < |b.sheets|
    ensures Linked(b, b.sheets[k])
  {
    hide Linked;
  }

  /** A sheet's relationship and the number in its target. */
  lemma LinkedRel(b: Book, v: SheetEntry)
    requires Linked(b, v)
    ensures RelFrom(b.rels, 0, v.ID) >= 0 && v.SheetID >= 1
    ensures TargetNumber(b.rels[RelFrom(b.rels, 0, v.ID)].Target) == v.SheetID
  {
    hide TargetNumber, SheetTarget, PartName, SheetPath, AllowedName;
    TargetNumberOf(v.SheetID);
  }

  lemma OneSheet(sheets: seq<SheetEntry>, i: nat, k: nat)
    requires DistinctSheets(sheets) && i < |sheets| && k < |sheets|
    ensures sheets[i].Name == sheets[k].Name <==> i == k
    ensures sheets[i].SheetID == sheets[k].SheetID <==> i == k
  {
  }

  lemma {:induction false} IndexFound(b: Book, i: nat, k: nat)
    requires AllLinked(b) && DistinctSheets(b.sheets) && i <= k < |b.sheets|
    ensures SheetIndexFrom(b, i, b.sheets[k].Name) == b.sheets[k].SheetID
    decreases k - i
  {
    hide TargetNumber, AllLinked, DistinctSheets, Linked;
    LinkedSheet(b, k);
    LinkedRel(b, b.sheets[k]);
    OneSheet(b.sheets, i, k);
    if i < k { IndexFound(b, i + 1, k); }
  }

  lemma {:induction false} IndexMissing(b: Book, i: nat, name: string)
    requires i <= |b.sheets| && !HasName(b.sheets, name)
    ensures SheetIndexFrom(b, i, name) == 0
    decreases |b.sheets| - i
  {
    hide TargetNumber;
    if i < |b.sheets| { IndexMissing(b, i + 1, name); }
  }

  lemma {:induction false} NameFound(b: Book, j: nat, k: nat)
    requires AllLinked(b) && DistinctSheets(b.sheets) && DistinctRels(b.rels)
    requires k < |b.sheets| && j <= RelFrom(b.rels, 0, b.sheets[k].ID)
    ensures SheetNameFrom(b, j, b.sheets[k].SheetID) == b.sheets[k].Name
    decreases RelFrom(b.rels, 0, b.sheets[k].ID) - j
  {
    hide TargetNumber, AllLinked, DistinctSheets, DistinctRels, Linked, RelFrom;
    var r := RelFrom(b.rels, 0, b.sheets[k].ID);
    LinkedSheet(b, k);
    LinkedRel(b, b.sheets[k]);
    var i := SheetWithRel(b.sheets, 0, b.rels[j].ID);
    if i >= 0 {
      LinkedSheet(b, i);
      LinkedRel(b, b.sheets[i]);
      SameRel(b.rels, j, b.sheets[i].ID);
      OneSheet(b.sheets, i, k);
    }
    if j < r { NameFound(b, j + 1, k); }
  }

  lemma SameRel(rels: seq<Relation>, j: nat, id: string)
    requires j < |rels| && rels[j].ID == id
    requires DistinctRels(rels)
    ensures RelFrom(rels, 0, id) == j
  {
  }

  /** A sheet's index leads back to its name, and an index of zero means there is no such sheet. */
  lemma NameOfIndex(b: Book, name: string)
    requires Good(b)
    ensures HasName(b.sheets, name) <==> GetSheetIndex(b, name) != 0
    ensures HasName(b.sheets, name) ==> GetSheetName(b, GetSheetIndex(b, name)) == name
  {
    hide SheetIndexFrom, SheetNameFrom, AllLinked, DistinctSheets, DistinctRels, DistinctParts, PartsKnown, PathsKnown, Linked;
    if HasName(b.sheets, name) {
      var k :| 0 <= k < |b.sheets| && b.sheets[k].Name == name;
      LinkedSheet(b, k);
      LinkedRel(b, b.sheets[k]);
      IndexFound(b, 0, k);
      NameFound(b, 0, k);
    } else {
      IndexMissing(b, 0, name);
    }
  }

  // ---------- adding

  lemma {:induction false} NoneAbove(rels: seq<Relation>, i: nat)
    requires i < |rels|
    ensures RelNumber(rels[i].ID) <= MaxRelNumber(rels)
  {
    hide RelNumber;
    var front := rels[..|rels| - 1];
    if i < |front| {
      assert front[i] == rels[i];
      NoneAbove(front, i);
    }
  }

  lemma NewRelIsNew(rels: seq<Relation>)
    ensures var id := RelID(MaxRelNumber(rels) + 1);
            forall i :: 0 <= i < |rels| ==> rels[i].ID != id
  {
    hide RelNumber, RelID, MaxRelNumber;
    var m := MaxRelNumber(rels);
    RelNumberOf(m + 1);
    forall i | 0 <= i < |rels|
      ensures rels[i].ID != RelID(m + 1)
    {
      NoneAbove(rels, i);
    }
  }

  lemma {:induction false} RelAppended(rels: seq<Relation>, k: nat, r: Relation, id: string)
    requires k <= |rels|
    ensures RelFrom(rels + [r], k, id) ==
            if RelFrom(rels, k, id) >= 0 then RelFrom(rels, k, id) else if r.ID == id then |rels| else -1
    decreases |rels| - k
  {
    if k < |rels| { RelAppended(rels, k + 1, r, id); }
  }

  lemma LinkedStill(b: Book, v: SheetEntry, r: Relation, part: string, name: string, path: string)
    requires Linked(b, v) && name != v.Name
    ensures Linked(b.(rels := b.rels + [r], overrides := b.overrides + [part], sheetMap := b.sheetMap[name := path]), v)
  {
    hide SheetTarget, PartName, SheetPath, AllowedName;
    RelAppended(b.rels, 0, r, v.ID);
  }

  lemma LinkedNew(b: Book, v: SheetEntry)
    requires AllowedName(v.Name) && v.SheetID >= 1 && forall i :: 0 <= i < |b.rels| ==> b.rels[i].ID != v.ID
    ensures Linked(b.(rels := b.rels + [Relation(v.ID, SheetTarget(v.SheetID))],
                      overrides := b.overrides + [PartName(SheetTarget(v.SheetID))],
                      sheetMap := b.sheetMap[v.Name := SheetPath(v.SheetID)]), v)
  {
    hide SheetTarget, PartName, SheetPath, AllowedName;
    RelAppended(b.rels, 0, Relation(v.ID, SheetTarget(v.SheetID)), v.ID);
  }

  lemma NewPart(parts: seq<string>, sheets: seq<SheetEntry>, id: nat)
    requires PartsKnown(parts, sheets) && forall i :: 0 <= i < |sheets| ==> sheets[i].SheetID < id
    ensures PartName(SheetTarget(id)) !in parts
    ensures forall v: SheetEntry :: v.SheetID == id ==> PartsKnown(parts + [PartName(SheetTarget(id))], sheets + [v])
  {
    hide PartName, SheetTarget;
    assert PartName(SheetTarget(id)) in parts ==> HasID(sheets, id);
    forall v: SheetEntry | v.SheetID == id
      ensures PartsKnown(parts + [PartName(SheetTarget(id))], sheets + [v])
    {
      forall k: nat | PartName(SheetTarget(k)) in parts + [PartName(SheetTarget(id))]
        ensures HasID(sheets + [v], k)
      {
        TargetsDiffer(k, id);
        if k == id {
          assert (sheets + [v])[|sheets|].SheetID == k;
        } else {
          var i :| 0 <= i < |sheets| && sheets[i].SheetID == k;
          assert (sheets + [v])[i].SheetID == k;
        }
      }
    }
  }

  lemma NewPath(sheetMap: map<string, string>, sheets: seq<SheetEntry>, v: SheetEntry, path: string)
    requires PathsKnown(sheetMap, sheets)
    ensures PathsKnown(sheetMap[v.Name := path], sheets + [v])
  {
    forall x | x in sheetMap[v.Name := path]
      ensures HasName(sheets + [v], x)
    {
      if x == v.Name {
        assert (sheets + [v])[|sheets|].Name == x;
      } else {
        var i :| 0 <= i < |sheets| && sheets[i].Name == x;
        assert (sheets + [v])[i].Name == x;
      }
    }
  }

  lemma DistinctAppended(sheets: seq<SheetEntry>, v: SheetEntry)
    requires DistinctSheets(sheets) && forall i :: 0 <= i < |sheets| ==> sheets[i].SheetID < v.SheetID
    ensures DistinctSheets(sheets + [v]) <==> !HasName(sheets, v.Name)
  {
    if HasName(sheets, v.Name) {
      var i :| 0 <= i < |sheets| && sheets[i].Name == v.Name;
      var more := sheets + [v];
      assert more[i].Name == more[|sheets|].Name;
    }
  }

  lemma PartAppended(parts: seq<string>, part: string)
    requires DistinctParts(parts) && part !in parts
    ensures DistinctParts(parts + [part])
  {
  }

  lemma RelDistinct(rels: seq<Relation>, r: Relation)
    requires DistinctRels(rels) && forall i :: 0 <= i < |rels| ==> rels[i].ID != r.ID
    ensures DistinctRels(rels + [r])
  {
  }

  /** Adding a sheet keeps the registry good exactly when its trimmed name is new. */
  lemma AddSheetKeeps(b: Book, name: string)
    requires Good(b)
    ensures Good(AddSheet(b, name)) <==> !HasName(b.sheets, TrimSheetName(name))
  {
    TrimIdempotent(name);
    NewRelIsNew(b.rels);
    hide TrimSheetName, RelID, RelNumber, SheetTarget, PartName, SheetPath, AllowedName, RelFrom, Linked, DistinctSheets,
         DistinctRels, DistinctParts, PartsKnown, PathsKnown, HasName;
    var b' := AddSheet(b, name);
    var n := |b.sheets|;
    var v := b'.sheets[n];
    DistinctAppended(b.sheets, v);
    if !HasName(b.sheets, v.Name) {
      forall i | 0 <= i < |b'.sheets|
        ensures Linked(b', b'.sheets[i])
      {
        if i < n {
          NameDiffers(b.sheets, i, v.Name);
          LinkedStill(b, b.sheets[i], Relation(v.ID, SheetTarget(v.SheetID)), PartName(SheetTarget(v.SheetID)), v.Name, SheetPath(v.SheetID));
          LinkedIgnoresSheets(b.(rels := b'.rels, overrides := b'.overrides, sheetMap := b'.sheetMap), b', b.sheets[i]);
        } else {
          LinkedNew(b, v);
          LinkedIgnoresSheets(b.(rels := b'.rels, overrides := b'.overrides, sheetMap := b'.sheetMap), b', v);
        }
      }
      NewPart(b.overrides, b.sheets, v.SheetID);
      NewPath(b.sheetMap, b.sheets, v, SheetPath(v.SheetID));
      PartAppended(b.overrides, PartName(SheetTarget(v.SheetID)));
      RelDistinct(b.rels, Relation(v.ID, SheetTarget(v.SheetID)));
    }
  }

  lemma NameDiffers(sheets: seq<SheetEntry>, i: nat, name: string)
    requires i < |sheets| && !HasName(sheets, name)
    ensures sheets[i].Name != name
  {
  }

  lemma LinkedIgnoresSheets(b: Book, b': Book, v: SheetEntry)
    requires b'.rels == b.rels && b'.overrides == b.overrides && b'.sheetMap == b.sheetMap
    ensures Linked(b, v) <==> Linked(b', v)
  {
  }

  // ---------- deleting

  lemma {:induction false} DropMissing(store: seq<string>, len: nat, i: nat, part: string)
    requires len <= |store| && i <= |store| && forall k :: i <= k < |store| ==> store[k] != part
    ensures DropOverrides(store, len, i, part) == Some(store[..len])
    decreases |store| - i
  {
    if i < |store| { DropMissing(store, len, i + 1, part); }
  }

  /** Distinct overrides: at most one is dropped, and the loop does not panic. */
  lemma {:induction false} DropOne(store: seq<string>, i: nat, at: nat)
    requires i <= at < |store| && DistinctParts(store)
    ensures DropOverrides(store, |store|, i, store[at]) == Some(store[..at] + store[at + 1..])
    decreases at - i
  {
    if i < at {
      DropOne(store, i + 1, at);
    } else {
      var store' := Delete(store, |store|, at);
      forall k | at + 1 <= k < |store|
        ensures store'[k] != store[at]
      {
      }
      DropMissing(store', |store| - 1, at + 1, store[at]);
      assert store'[..|store| - 1] == store[..at] + store[at + 1..];
    }
  }

  lemma {:induction false} NothingDeleted(b: Book, store: seq<SheetEntry>, len: nat, i: nat, name: string)
    requires len <= |store| && i <= |store|
    requires len <= 1 || forall k :: i <= k < |store| ==> store[k].Name != TrimSheetName(name)
    ensures DeleteLoop(b, store, len, i, name) == Some(b.(sheets := store[..len]))
    decreases |store| - i
  {
    hide TrimSheetName, DropOverrides, DeleteRel;
    if i < |store| { NothingDeleted(b, store, len, i + 1, name); }
  }

  /** The registry with sheet k taken out, as DeleteSheet does it when called with that name. */
  function Without(b: Book, k: nat, name: string): (b': Book)
    requires k < |b.sheets|
  {
    var v := b.sheets[k];
    var part := PartName(DeleteRel(b.rels, v.ID).1);
    Book(b.sheets[..k] + b.sheets[k + 1..], DeleteRel(b.rels, v.ID).0,
         match DropOverrides(b.overrides, |b.overrides|, 0, part) case Some(o) => o case None => [],
         b.sheetMap - {name}, b.sheetCount - 1)
  }

  lemma DeleteStep(b: Book, store: seq<SheetEntry>, k: nat, name: string)
    requires store == b.sheets && k < |store| && |store| >= 2 && store[k].Name == TrimSheetName(name)
    requires DropOverrides(b.overrides, |b.overrides|, 0, PartName(DeleteRel(b.rels, store[k].ID).1)).Some?
    ensures DeleteLoop(b, store, |store|, k, name) ==
            DeleteLoop(Without(b, k, name).(sheets := store), Delete(store, |store|, k), |store| - 1, k + 1, name)
  {
    hide TrimSheetName, DeleteRel, DropOverrides, PartName, Delete;
  }

  lemma NoMoreMatches(sheets: seq<SheetEntry>, k: nat)
    requires DistinctSheets(sheets) && k < |sheets|
    ensures var store := Delete(sheets, |sheets|, k);
            && store[..|sheets| - 1] == sheets[..k] + sheets[k + 1..]
            && forall j :: k + 1 <= j < |store| ==> store[j].Name != sheets[k].Name
  {
    var store := Delete(sheets, |sheets|, k);
    forall j | k + 1 <= j < |sheets|
      ensures store[j].Name != sheets[k].Name
    {
      OneSheet(sheets, if j < |sheets| - 1 then j + 1 else j, k);
    }
  }

  lemma {:induction false} DeleteOne(b: Book, i: nat, k: nat, name: string)
    requires Good(b) && i <= k < |b.sheets| && |b.sheets| >= 2 && b.sheets[k].Name == TrimSheetName(name)
    ensures DeleteLoop(b, b.sheets, |b.sheets|, i, name) == Some(Without(b, k, name))
    decreases k - i
  {
    hide TrimSheetName, DeleteRel, DropOverrides, PartName, SheetTarget, Good, DistinctSheets, DistinctRels, DistinctParts,
         PartsKnown, PathsKnown, AllLinked, Delete;
    GoodParts(b);
    OneSheet(b.sheets, i, k);
    if i < k {
      DeleteOne(b, i + 1, k, name);
    } else {
      var at := OverrideDrops(b, k);
      hide DeleteLoop;
      DeleteStep(b, b.sheets, k, name);
      NoMoreMatches(b.sheets, k);
      NothingDeleted(Without(b, k, name).(sheets := b.sheets), Delete(b.sheets, |b.sheets|, k), |b.sheets| - 1, k + 1, name);
    }
  }

  lemma GoodParts(b: Book)
    requires Good(b)
    ensures AllLinked(b) && DistinctSheets(b.sheets) && DistinctRels(b.rels) && DistinctParts(b.overrides)
    ensures PartsKnown(b.overrides, b.sheets) && PathsKnown(b.sheetMap, b.sheets) && b.sheetCount == |b.sheets| >= 1
  {
  }

  /** The override of sheet k goes, alone. */
  lemma OverrideDrops(b: Book, k: nat) returns (at: nat)
    requires Good(b) && k < |b.sheets|
    ensures DeleteRel(b.rels, b.sheets[k].ID).1 == SheetTarget(b.sheets[k].SheetID)
    ensures at < |b.overrides| && b.overrides[at] == PartName(SheetTarget(b.sheets[k].SheetID))
    ensures DropOverrides(b.overrides, |b.overrides|, 0, PartName(SheetTarget(b.sheets[k].SheetID))) ==
            Some(b.overrides[..at] + b.overrides[at + 1..])
  {
    hide PartName, SheetTarget, SheetPath, AllowedName, DropOverrides, DistinctSheets, DistinctRels, DistinctParts,
         PartsKnown, PathsKnown;
    LinkedSheet(b, k);
    at :| 0 <= at < |b.overrides| && b.overrides[at] == PartName(SheetTarget(b.sheets[k].SheetID));
    DropOne(b.overrides, 0, at);
  }

  lemma {:induction false} RelKept(rels: seq<Relation>, at: nat, j: nat)
    requires at < |rels| && j < |rels| && j != at && DistinctRels(rels)
    ensures var cut := rels[..at] + rels[at + 1..];
            RelFrom(cut, 0, rels[j].ID) >= 0 && cut[RelFrom(cut, 0, rels[j].ID)] == rels[j]
  {
    var cut := rels[..at] + rels[at + 1..];
    var j' := if j < at then j else j - 1;
    assert cut[j'] == rels[j];
    forall i, k | 0 <= i < k < |cut|
      ensures cut[i].ID != cut[k].ID
    {
      assert cut[i] == rels[if i < at then i else i + 1] && cut[k] == rels[if k < at then k else k + 1];
    }
    SameRel(cut, j', rels[j].ID);
  }

  /** Taking out a sheet keeps the registry good exactly when it was called by the sheet's own name. */
  lemma WithoutKeeps(b: Book, k: nat, name: string)
    requires Good(b) && k < |b.sheets| && |b.sheets| >= 2 && b.sheets[k].Name == TrimSheetName(name)
    ensures Good(Without(b, k, name)) <==> name == TrimSheetName(name)
    ensures name != TrimSheetName(name) ==> Without(b, k, name).sheetMap == b.sheetMap
  {
    hide TrimSheetName, SheetTarget, PartName, DropOverrides, Good, HasName, HasID, PathsKnown, PartsKnown, DistinctSheets,
         DistinctRels, DistinctParts, Linked, RelFrom;
    GoodParts(b);
    var at := OverrideDrops(b, k);
    var v, b' := b.sheets[k], Without(b, k, name);
    LinkedSheet(b, k);
    LinkedRel(b, v);
    if name != v.Name {
      UntrimmedUnknown(b, name);
      assert b'.sheetMap == b.sheetMap;
      NameGone(b.sheets, k);
      StalePath(b, k, b');
    } else {
      var r := RelFrom(b.rels, 0, v.ID);
      forall i | 0 <= i < |b'.sheets|
        ensures Linked(b', b'.sheets[i])
      {
        StillLinked(b, k, if i < k then i else i + 1, r, at, b');
      }
      CutDistinct(b, k, r, at);
      CutKnown(b, k, at);
      AssembleGood(b');
    }
  }

  lemma AssembleGood(b: Book)
    requires b.sheetCount == |b.sheets| >= 1 && (forall i :: 0 <= i < |b.sheets| ==> Linked(b, b.sheets[i]))
    requires DistinctSheets(b.sheets) && DistinctRels(b.rels) && DistinctParts(b.overrides)
    requires PartsKnown(b.overrides, b.sheets) && PathsKnown(b.sheetMap, b.sheets)
    ensures Good(b)
  {
    hide Linked, DistinctSheets, DistinctRels, DistinctParts, PartsKnown, PathsKnown;
  }

  lemma StalePath(b: Book, k: nat, b': Book)
    requires Good(b) && k < |b.sheets| && b'.sheetMap == b.sheetMap && !HasName(b'.sheets, b.sheets[k].Name)
    ensures !Good(b')
  {
    hide HasName, DistinctSheets, DistinctRels, DistinctParts, PartsKnown, RelFrom, SheetTarget, PartName, SheetPath, AllowedName;
    LinkedSheet(b, k);
    assert b.sheets[k].Name in b'.sheetMap;
  }

  lemma UntrimmedUnknown(b: Book, name: string)
    requires Good(b) && name != TrimSheetName(name)
    ensures name !in b.sheetMap && !HasName(b.sheets, name)
  {
    TrimIdempotent(name);
    hide TrimSheetName, SheetTarget, PartName, SheetPath, AllowedName, DistinctSheets, DistinctRels, DistinctParts,
         PartsKnown, RelFrom;
    forall i | 0 <= i < |b.sheets|
      ensures b.sheets[i].Name != name
    {
      LinkedSheet(b, i);
    }
  }

  lemma StillLinked(b: Book, k: nat, j: nat, r: nat, at: nat, b': Book)
    requires AllLinked(b) && DistinctSheets(b.sheets) && DistinctRels(b.rels)
    requires k < |b.sheets| && j < |b.sheets| && j != k
    requires r < |b.rels| && r == RelFrom(b.rels, 0, b.sheets[k].ID)
    requires at < |b.overrides| && b.overrides[at] == PartName(SheetTarget(b.sheets[k].SheetID))
    requires b'.rels == b.rels[..r] + b.rels[r + 1..] && b'.overrides == b.overrides[..at] + b.overrides[at + 1..]
    requires b'.sheetMap == b.sheetMap - {b.sheets[k].Name}
    ensures Linked(b', b.sheets[j])
  {
    hide SheetTarget, PartName, SheetPath, AllowedName, DistinctSheets, DistinctRels, RelFrom, AllLinked;
    var u, v := b.sheets[k], b.sheets[j];
    LinkedSheet(b, k);
    LinkedSheet(b, j);
    OneSheet(b.sheets, j, k);
    TargetsDiffer(u.SheetID, v.SheetID);
    RelKept(b.rels, r, RelFrom(b.rels, 0, v.ID));
    PartKept(b.overrides, at, PartName(SheetTarget(v.SheetID)));
  }

  lemma PartKept(parts: seq<string>, at: nat, part: string)
    requires at < |parts| && part in parts && part != parts[at]
    ensures part in parts[..at] + parts[at + 1..]
  {
    var o :| 0 <= o < |parts| && parts[o] == part;
    assert (parts[..at] + parts[at + 1..])[if o < at then o else o - 1] == part;
  }

  lemma CutDistinct(b: Book, k: nat, r: nat, at: nat)
    requires DistinctSheets(b.sheets) && DistinctRels(b.rels) && DistinctParts(b.overrides)
    requires k < |b.sheets| && r < |b.rels| && at < |b.overrides|
    ensures DistinctSheets(b.sheets[..k] + b.sheets[k + 1..])
    ensures DistinctRels(b.rels[..r] + b.rels[r + 1..])
    ensures DistinctParts(b.overrides[..at] + b.overrides[at + 1..])
  {
  }

  lemma CutKnown(b: Book, k: nat, at: nat)
    requires PartsKnown(b.overrides, b.sheets) && PathsKnown(b.sheetMap, b.sheets) && DistinctParts(b.overrides)
    requires k < |b.sheets| && b.sheets[k].SheetID >= 1
    requires at < |b.overrides| && b.overrides[at] == PartName(SheetTarget(b.sheets[k].SheetID))
    ensures PartsKnown(b.overrides[..at] + b.overrides[at + 1..], b.sheets[..k] + b.sheets[k + 1..])
    ensures PathsKnown(b.sheetMap - {b.sheets[k].Name}, b.sheets[..k] + b.sheets[k + 1..])
  {
    hide PartName, SheetTarget;
    var parts, sheets := b.overrides[..at] + b.overrides[at + 1..], b.sheets[..k] + b.sheets[k + 1..];
    forall id: nat | PartName(SheetTarget(id)) in parts
      ensures HasID(sheets, id)
    {
      var o :| 0 <= o < |parts| && parts[o] == PartName(SheetTarget(id));
      assert b.overrides[if o < at then o else o + 1] == PartName(SheetTarget(id));
      assert HasID(b.sheets, id);
      var i :| 0 <= i < |b.sheets| && b.sheets[i].SheetID == id;
      assert i != k;
      assert sheets[if i < k then i else i - 1].SheetID == id;
    }
    forall x | x in b.sheetMap - {b.sheets[k].Name}
      ensures HasName(sheets, x)
    {
      var i :| 0 <= i < |b.sheets| && b.sheets[i].Name == x;
      assert sheets[if i < k then i else i - 1].Name == x;
    }
  }

  /**
   DeleteSheet never panics on a good registry and never removes the last sheet. It keeps the
   registry good exactly when it is called by a trimmed name or has nothing to delete: an untrimmed
   name deletes the sheet but leaves its entry in the path map.
   */
  lemma DeleteSheetKeeps(b: Book, name: string)
    requires Good(b)
    ensures DeleteSheet(b, name).Some?
    ensures Good(DeleteSheet(b, name).value) <==>
            name == TrimSheetName(name) || |b.sheets| == 1 || !HasName(b.sheets, TrimSheetName(name))
    ensures |b.sheets| == 1 || !HasName(b.sheets, TrimSheetName(name)) ==> DeleteSheet(b, name) == Some(b)
    ensures |b.sheets| > 1 ==> !HasName(DeleteSheet(b, name).value.sheets, TrimSheetName(name))
  {
    hide Good, Linked, TrimSheetName, DropOverrides, DeleteRel, PartName;
    assert b.sheets[..|b.sheets|] == b.sheets;
    if |b.sheets| == 1 || !HasName(b.sheets, TrimSheetName(name)) {
      SheetsCount(b);
      NothingDeleted(b, b.sheets, |b.sheets|, 0, name);
    } else {
      SheetsCount(b);
      var k :| 0 <= k < |b.sheets| && b.sheets[k].Name == TrimSheetName(name);
      DeleteOne(b, 0, k, name);
      WithoutKeeps(b, k, name);
      GoodParts(b);
      NameGone(b.sheets, k);
    }
  }

  lemma SheetsCount(b: Book)
    requires Good(b)
    ensures |b.sheets| >= 1
  {
  }

  lemma NameGone(sheets: seq<SheetEntry>, k: nat)
    requires DistinctSheets(sheets) && k < |sheets|
    ensures !HasName(sheets[..k] + sheets[k + 1..], sheets[k].Name)
  {
    var cut := sheets[..k] + sheets[k + 1..];
    forall i | 0 <= i < |cut|
      ensures cut[i].Name != sheets[k].Name
    {
      assert cut[i] == sheets[if i < k then i else i + 1];
    }
  }

  // ---------- NewSheet

  lemma TrimmedDeleteThenAdd(b: Book, k: nat, name: string)
    requires k < |b.sheets| && b.sheets[k].Name == TrimSheetName(name) == TrimSheetName(TrimSheetName(name))
    requires name !in b.sheetMap
    ensures AddSheet(Without(b, k, name), name) == AddSheet(Without(b, k, TrimSheetName(name)), TrimSheetName(name))
  {
    hide TrimSheetName, DropOverrides, DeleteRel, PartName, SheetTarget, SheetPath, RelID;
    var t := TrimSheetName(name);
    var path := SheetPath(MaxSheetID(b.sheets[..k] + b.sheets[k + 1..]) + 1);
    assert (b.sheetMap - {name})[t := path] == (b.sheetMap - {t})[t := path];
  }

  /**
   NewSheet never panics on a good registry. For a known name it changes nothing. Otherwise it
   keeps the registry good, with the new sheet found under its trimmed name, except in one case:
   an untrimmed spelling of the only sheet's name, which adds a second sheet of the same name.
   (With several sheets such a spelling replaces the sheet of that name by an empty one.)
   */
  lemma NewSheetKeeps(b: Book, name: string)
    requires Good(b)
    ensures NewSheet(b, name).Some?
    ensures var (b', r) := NewSheet(b, name).value;
            && (HasName(b.sheets, name) ==> b' == b && r == |b.sheets|)
            && (!HasName(b.sheets, name) ==> r >= 1 && HasName(b'.sheets, TrimSheetName(name)))
            && (Good(b') <==> HasName(b.sheets, name) || !HasName(b.sheets, TrimSheetName(name)) || |b.sheets| > 1)
  {
    hide GetSheetIndex, DeleteSheet, TrimSheetName, Good, HasName, RelID, SheetTarget, PartName, SheetPath, Without;
    NameOfIndex(b, name);
    GoodParts(b);
    DeleteSheetKeeps(b, name);
    if !HasName(b.sheets, name) {
      var b1 := DeleteSheet(b, name).value;
      AddedIsThere(b1, name);
      if !HasName(b.sheets, TrimSheetName(name)) || |b.sheets| == 1 {
        AddSheetKeeps(b, name);
      } else {
        ReplacesSheet(b, name);
      }
    }
  }

  lemma AddedIsThere(b: Book, name: string)
    ensures HasName(AddSheet(b, name).sheets, TrimSheetName(name))
  {
    hide TrimSheetName;
    assert AddSheet(b, name).sheets[|b.sheets|].Name == TrimSheetName(name);
  }

  lemma ReplacesSheet(b: Book, name: string)
    requires Good(b) && HasName(b.sheets, TrimSheetName(name)) && !HasName(b.sheets, name) && |b.sheets| > 1
    ensures DeleteSheet(b, name).Some? && Good(AddSheet(DeleteSheet(b, name).value, name))
  {
    hide TrimSheetName, Good, Without, AddSheet, DeleteLoop;
    var t := TrimSheetName(name);
    TrimIdempotent(name);
    var k :| 0 <= k < |b.sheets| && b.sheets[k].Name == t;
    DeleteOne(b, 0, k, name);
    UntrimmedUnknown(b, name);
    TrimmedDeleteThenAdd(b, k, name);
    WithoutKeeps(b, k, t);
    GoodParts(b);
    NameGone(b.sheets, k);
    WithoutSheets(b, k, t);
    AddSheetKeeps(Without(b, k, t), t);
  }

  lemma WithoutSheets(b: Book, k: nat, name: string)
    requires k < |b.sheets|
    ensures Without(b, k, name).sheets == b.sheets[..k] + b.sheets[k + 1..]
  {
  }

  // ---------- SetSheetName

  /** Sheet k under a new name. */
  function Renamed(b: Book, k: nat, name: string): (b': Book)
    requires k < |b.sheets|
  {
    var v := b.sheets[k];
    b.(sheets := b.sheets[k := v.(Name := name)],
       sheetMap := b.sheetMap[name := if v.Name in b.sheetMap then b.sheetMap[v.Name] else ""] - {v.Name})
  }

  lemma {:induction false} RenameNothing(b: Book, i: nat, old_: string, new_: string)
    requires i <= |b.sheets| && forall j :: i <= j < |b.sheets| ==> b.sheets[j].Name != old_
    ensures RenameFrom(b, i, old_, new_) == b
    decreases |b.sheets| - i
  {
    if i < |b.sheets| { RenameNothing(b, i + 1, old_, new_); }
  }

  lemma {:induction false} RenameOne(b: Book, i: nat, k: nat, new_: string)
    requires DistinctSheets(b.sheets) && i <= k < |b.sheets|
    ensures RenameFrom(b, i, b.sheets[k].Name, new_) == Renamed(b, k, new_)
    decreases k - i
  {
    if i < k { RenameOne(b, i + 1, k, new_); } else { RenameNothing(Renamed(b, k, new_), k + 1, b.sheets[k].Name, new_); }
  }

  lemma RenamedLinked(b: Book, k: nat, name: string, i: nat)
    requires Good(b) && k < |b.sheets| && i < |b.sheets| && AllowedName(name) && !HasName(b.sheets, name)
    ensures Linked(Renamed(b, k, name), Renamed(b, k, name).sheets[i])
  {
    hide DistinctRels, DistinctParts, PartsKnown, PathsKnown, RelFrom, SheetTarget, PartName, SheetPath, AllowedName,
         DistinctSheets, AllLinked;
    GoodParts(b);
    LinkedSheet(b, k);
    LinkedSheet(b, i);
    OneSheet(b.sheets, i, k);
  }

  lemma RenamedKnown(b: Book, k: nat, name: string)
    requires PartsKnown(b.overrides, b.sheets) && PathsKnown(b.sheetMap, b.sheets) && DistinctSheets(b.sheets)
    requires k < |b.sheets| && !HasName(b.sheets, name)
    ensures var b' := Renamed(b, k, name);
            PartsKnown(b'.overrides, b'.sheets) && PathsKnown(b'.sheetMap, b'.sheets) && DistinctSheets(b'.sheets)
  {
    hide PartName, SheetTarget;
    var b' := Renamed(b, k, name);
    forall id: nat | PartName(SheetTarget(id)) in b'.overrides
      ensures HasID(b'.sheets, id)
    {
      var i :| 0 <= i < |b.sheets| && b.sheets[i].SheetID == id;
      assert b'.sheets[i].SheetID == id;
    }
    forall x | x in b'.sheetMap
      ensures HasName(b'.sheets, x)
    {
      if x == name {
        assert b'.sheets[k].Name == x;
      } else {
        var i :| 0 <= i < |b.sheets| && b.sheets[i].Name == x;
        assert b'.sheets[i].Name == x;
      }
    }
  }

  /**
   SetSheetName keeps the registry good exactly when the old name is unknown or the new one is:
   renaming to a name in use, the sheet's own included, breaks it.
   */
  lemma SetSheetNameKeeps(b: Book, oldName: string, newName: string)
    requires Good(b)
    ensures Good(SetSheetName(b, oldName, newName)) <==>
            !HasName(b.sheets, TrimSheetName(oldName)) || !HasName(b.sheets, TrimSheetName(newName))
  {
    hide TrimSheetName, Good, Linked, DistinctSheets, DistinctRels, DistinctParts, PartsKnown, PathsKnown, AllowedName;
    var o, n := TrimSheetName(oldName), TrimSheetName(newName);
    TrimIdempotent(newName);
    GoodParts(b);
    if HasName(b.sheets, o) {
      var k :| 0 <= k < |b.sheets| && b.sheets[k].Name == o;
      RenameOne(b, 0, k, n);
      var b' := Renamed(b, k, n);
      if HasName(b.sheets, n) {
        RenameClash(b, k, n);
      } else {
        forall i | 0 <= i < |b'.sheets|
          ensures Linked(b', b'.sheets[i])
        {
          RenamedLinked(b, k, n, i);
        }
        RenamedKnown(b, k, n);
        AssembleGood(b');
      }
    } else {
      RenameNothing(b, 0, o, n);
    }
  }

  lemma RenameClash(b: Book, k: nat, name: string)
    requires Good(b) && k < |b.sheets| && HasName(b.sheets, name)
    ensures !Good(Renamed(b, k, name))
  {
    hide DistinctRels, DistinctParts, PartsKnown, PathsKnown, RelFrom, SheetTarget, PartName, SheetPath, AllowedName;
    var b' := Renamed(b, k, name);
    var j :| 0 <= j < |b.sheets| && b.sheets[j].Name == name;
    if j == k {
      assert !Linked(b', b'.sheets[k]);
    } else {
      assert b'.sheets[j].Name == b'.sheets[k].Name;
    }
  }

  // ---------- whole runs

  datatype Op = Add(name: string) | Drop(name: string) | Rename(oldName: string, newName: string)

  function Apply(b: Book, op: Op): (result: Option<Book>) {
    match op
    case Add(name) => (match NewSheet(b, name) case Some(r) => Some(r.0) case None => None)
    case Drop(name) => DeleteSheet(b, name)
    case Rename(oldName, newName) => Some(SetSheetName(b, oldName, newName))
  }

  /** The steps that keep the registry in step, each exactly as its lemma above says. */
  predicate Legal(b: Book, op: Op) {
    match op
    case Add(name) =>
      HasName(b.sheets, name) || !HasName(b.sheets, TrimSheetName(name)) || |b.sheets| > 1
    case Drop(name) =>
      name == TrimSheetName(name) || |b.sheets| == 1 || !HasName(b.sheets, TrimSheetName(name))
    case Rename(oldName, newName) =>
      !HasName(b.sheets, TrimSheetName(oldName)) || !HasName(b.sheets, TrimSheetName(newName))
  }

  /** The state after a run, or None if a step panicked. */
  function Run(b: Book, ops: seq<Op>): (result: Option<Book>)
    decreases ops
  {
    hide Apply;
    if ops == [] then Some(b)
    else match Apply(b, ops[0]) case None => None case Some(b') => Run(b', ops[1..])
  }

  predicate LegalRun(b: Book, ops: seq<Op>)
    decreases ops
  {
    hide Apply, Legal;
    ops == [] || (Legal(b, ops[0]) && (Apply(b, ops[0]).Some? ==> LegalRun(Apply(b, ops[0]).value, ops[1..])))
  }

  /** A step never panics on a good registry, and keeps it good exactly when it is legal. */
  lemma StepKeeps(b: Book, op: Op)
    requires Good(b)
    ensures Apply(b, op).Some? && (Good(Apply(b, op).value) <==> Legal(b, op))
  {
    hide Good, HasName, TrimSheetName, NewSheet, DeleteSheet, SetSheetName;
    match op
    case Add(name) => NewSheetKeeps(b, name);
    case Drop(name) => DeleteSheetKeeps(b, name);
    case Rename(oldName, newName) => SetSheetNameKeeps(b, oldName, newName);
  }

  lemma NewFileIsGood()
    ensures Good(NEW_FILE)
  {
    hide Linked, PartsKnown, PathsKnown, SheetTarget, PartName, SheetPath, RelID, RelNumber;
    RelNumberOf(1);
    RelNumberOf(2);
    RelNumberOf(3);
    PartStarts(1);
    NewFileLinked();
    NewFileKnown();
    AssembleGood(NEW_FILE);
  }

  lemma NewFileLinked()
    ensures Linked(NEW_FILE, NEW_FILE.sheets[0])
  {
    hide SheetTarget, PartName, SheetPath, RelID;
    assert NEW_FILE.overrides[4] == PartName(SheetTarget(1));
  }

  lemma NewFileKnown()
    ensures PartsKnown(NEW_FILE.overrides, NEW_FILE.sheets) && PathsKnown(NEW_FILE.sheetMap, NEW_FILE.sheets)
  {
    hide SheetTarget, PartName, SheetPath, RelID;
    forall id: nat | PartName(SheetTarget(id)) in NEW_FILE.overrides
      ensures HasID(NEW_FILE.sheets, id)
    {
      PartStarts(id);
      TargetsDiffer(id, 1);
      assert NEW_FILE.sheets[0].SheetID == 1;
    }
    assert NEW_FILE.sheets[0].Name == "Sheet1";
  }

  lemma PartStarts(id: nat)
    ensures var part := PartName(SheetTarget(id)); |part| > 8 && part[1] == 'x' && part[4] == 'w' && part[8] == 's'
  {
  }

  /**
   From NewFile on, every legal run of NewSheet, DeleteSheet and SetSheetName keeps names, numbers
   and relationship ids distinct and everything in step, and every name is found by its index.
   */
  lemma {:induction false} RunKeeps(b: Book, ops: seq<Op>)
    requires Good(b) && LegalRun(b, ops)
    ensures Run(b, ops).Some? && Good(Run(b, ops).value)
    ensures var b' := Run(b, ops).value;
            forall name :: HasName(b'.sheets, name) ==> GetSheetName(b', GetSheetIndex(b', name)) == name
    decreases ops
  {
    hide Good, Apply, Legal, GetSheetIndex, GetSheetName, HasName;
    if ops == [] {
      forall name | HasName(b.sheets, name)
        ensures GetSheetName(b, GetSheetIndex(b, name)) == name
      {
        NameOfIndex(b, name);
      }
    } else {
      StepKeeps(b, ops[0]);
      RunKeeps(Apply(b, ops[0]).value, ops[1..]);
    }
  }
}
