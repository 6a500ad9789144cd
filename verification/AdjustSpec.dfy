/**
 What the steps of adjust.go, checkSheet (excelize.go) and checkRow (rows.go) make of a sheet.
 Every function is total; an index that Go would find out of range ends in Panicked.
 */
module AdjustSpec {
  import opened Wrappers
  import opened Text
  import opened CellNames
  import opened SheetModel

  // ---------- rows and columns

  /** ajustSingleRowDimensions on one cell: the column letters are kept, the number replaced. */
  function RenumberCell(c: Cell, num: int): (c': Cell) {
    var colName := match SplitCellName(c.R) case Ok(parts) => parts.0 case Err(_) => "";
    c.(R := match JoinCellName(colName, num) case Ok(name) => name case Err(_) => "")
  }

  function RenumberRow(r: Row, num: int): (r': Row)
    ensures r'.R == num && r'.attrs == r.attrs && |r'.C| == |r.C|
    ensures forall j :: 0 <= j < |r.C| ==> r'.C[j] == RenumberCell(r.C[j], num)
  {
    r.(R := num, C := seq(|r.C|, j requires 0 <= j < |r.C| => RenumberCell(r.C[j], num)))
  }

  function ShiftRow(r: Row, num: int, offset: int): (r': Row) {
    if r.R >= num && r.R + offset > 0 then RenumberRow(r, r.R + offset) else r
  }

  function AdjustRows(rows: seq<Row>, num: int, offset: int): (rows': seq<Row>)
    ensures |rows'| == |rows|
    ensures forall i :: 0 <= i < |rows| ==> rows'[i] == ShiftRow(rows[i], num, offset)
  {
    seq(|rows|, i requires 0 <= i < |rows| => ShiftRow(rows[i], num, offset))
  }

  function ShiftCell(c: Cell, num: int, offset: int): (c': Cell) {
    var (col, row) := CoordsOf(c.R);
    if num <= col && col + offset > 0 then c.(R := NameOf(col + offset, row)) else c
  }

  function ShiftCells(r: Row, num: int, offset: int): (r': Row)
    ensures r'.R == r.R && r'.attrs == r.attrs && |r'.C| == |r.C|
    ensures forall j :: 0 <= j < |r.C| ==> r'.C[j] == ShiftCell(r.C[j], num, offset)
  {
    r.(C := seq(|r.C|, j requires 0 <= j < |r.C| => ShiftCell(r.C[j], num, offset)))
  }

  function AdjustCols(rows: seq<Row>, num: int, offset: int): (rows': seq<Row>)
    ensures |rows'| == |rows|
    ensures forall i :: 0 <= i < |rows| ==> rows'[i] == ShiftCells(rows[i], num, offset)
  {
    seq(|rows|, i requires 0 <= i < |rows| => ShiftCells(rows[i], num, offset))
  }

  // ---------- slices that shrink while they are ranged over

  /**
   append(s[:i], s[i+1:]...) on a slice of length len over a backing array: the tail moves down
   one place and the last slot keeps its old element.
   */
  function Delete<T>(store: seq<T>, len: nat, i: nat): (store': seq<T>)
    requires i < len <= |store|
    ensures |store'| == |store|
    ensures forall k :: 0 <= k < |store| ==> store'[k] == if i <= k < len - 1 then store[k + 1] else store[k]
  {
    store[..i] + store[i + 1..len] + store[len - 1..]
  }

  // ---------- hyperlinks

  predicate OnLine(ref: string, dir: Direction, num: int) {
    var (col, row) := CoordsOf(ref);
    (dir.Rows? && num == row) || (dir.Columns? && num == col)
  }

  /**
   The removal loop of adjustHyperlinks from iteration i: it ranges over the original slice
   header, so it reads the backing array that its own deletions rearrange.
   */
  function RemoveLinks(store: seq<Hyperlink>, len: nat, gone: bool, i: nat, dir: Direction, num: int)
    : (left: (Option<seq<Hyperlink>>, Outcome))
    requires len <= |store| && i <= |store|
    decreases |store| - i
  {
    if i == |store| then
      (if gone then None else Some(store[..len]), Done)
    else if !OnLine(store[i].Ref, dir, num) then
      RemoveLinks(store, len, gone, i + 1, dir, num)
    else if gone then
      (None, Panicked)
    else if len <= 1 then
      RemoveLinks(store, len, true, i + 1, dir, num)
    else if i >= len then
      (Some(store[..len]), Panicked)
    else
      RemoveLinks(Delete(store, len, i), len - 1, false, i + 1, dir, num)
  }

  function ShiftRef(ref: string, dir: Direction, num: int, offset: int): (ref': string) {
    var (col, row) := CoordsOf(ref);
    if dir.Rows? then (if row >= num then NameOf(col, row + offset) else ref)
    else (if col >= num then NameOf(col + offset, row) else ref)
  }

  function ShiftLinks(links: seq<Hyperlink>, dir: Direction, num: int, offset: int): (links': seq<Hyperlink>)
    ensures |links'| == |links|
    ensures forall k :: 0 <= k < |links| ==>
              links'[k] == links[k].(Ref := ShiftRef(links[k].Ref, dir, num, offset))
  {
    seq(|links|, k requires 0 <= k < |links| => links[k].(Ref := ShiftRef(links[k].Ref, dir, num, offset)))
  }

  function AdjustLinks(links: Option<seq<Hyperlink>>, dir: Direction, num: int, offset: int)
    : (left: (Option<seq<Hyperlink>>, Outcome))
  {
    if links.None? || links.value == [] then (links, Done)
    else
      var (kept, o) :=
        if offset < 0 then RemoveLinks(links.value, |links.value|, false, 0, dir, num) else (links, Done);
      if !o.Done? || kept.None? then (kept, o)
      else (Some(ShiftLinks(kept.value, dir, num, offset)), Done)
  }

  // ---------- merged areas

  function AdjustCoordinate(v: int, num: int, offset: int): (v': int) {
    if v >= num then (if v + offset < 1 then 1 else v + offset) else v
  }

  datatype Move = BadArea | BadCorner(error: Error) | Moved(ref: string, single: bool)

  function MoveArea(ref: string, dir: Direction, num: int, offset: int): (m: Move) {
    var parts := SplitColon(ref);
    if |parts| < 2 then BadArea
    else
      var first, last := CellNameToCoordinates(parts[0]), CellNameToCoordinates(parts[1]);
      if first.Err? then BadCorner(first.error)
      else if last.Err? then BadCorner(last.error)
      else
        var ((c1, r1), (c2, r2)) := (first.value, last.value);
        var (c1', r1') := if dir.Rows? then (c1, AdjustCoordinate(r1, num, offset)) else (AdjustCoordinate(c1, num, offset), r1);
        var (c2', r2') := if dir.Rows? then (c2, AdjustCoordinate(r2, num, offset)) else (AdjustCoordinate(c2, num, offset), r2);
        Moved(NameOf(c1', r1') + ":" + NameOf(c2', r2'), c1' == c2' && r1' == r2')
  }

  /** Every pointer of the slice points to one of m areas. */
  predicate Pointing(order: seq<nat>, m: nat) { forall k :: 0 <= k < |order| ==> order[k] < m }

  lemma PointsOn(order: seq<nat>, m: nat, i: nat)
    requires Pointing(order, m) && i < |order|
    ensures order[i] < m
    ensures forall len: nat :: i < len <= |order| ==> Pointing(Delete(order, len, i), m)
  {
    forall len: nat | i < len <= |order|
      ensures Pointing(Delete(order, len, i), m)
    {
      var order' := Delete(order, len, i);
      forall k | 0 <= k < |order'|
        ensures order'[k] < m
      {
        assert order'[k] == if i <= k < len - 1 then order[k + 1] else order[k];
      }
    }
  }

  /** The areas that a slice of pointers shows: order holds pointers, refs what they point to. */
  function Visible(refs: seq<string>, order: seq<nat>, len: nat): (shown: seq<string>)
    requires len <= |order| && Pointing(order, |refs|)
  {
    seq(len, k requires 0 <= k < len => refs[order[k]])
  }

  /**
   The loop of adjustMergeCells from iteration i. It ranges over the original slice of pointers:
   order is the backing array, len the length of the slice as shortened so far.
   */
  function MoveAreas(refs: seq<string>, order: seq<nat>, len: nat, gone: bool, i: nat,
                     dir: Direction, num: int, offset: int)
    : (left: (Option<seq<string>>, Outcome))
    requires len <= |order| && i <= |order| && Pointing(order, |refs|)
    decreases |order| - i
  {
    hide MoveArea, Delete, Visible, Pointing;
    var now := if gone then None else Some(Visible(refs, order, len));
    if i == |order| then (now, Done)
    else
      PointsOn(order, |refs|, i);
      match MoveArea(refs[order[i]], dir, num, offset)
      case BadArea => (now, Panicked)
      case BadCorner(e) => (now, Failed(e))
      case Moved(ref, single) =>
        var refs' := refs[order[i] := ref];
        if !single then MoveAreas(refs', order, len, gone, i + 1, dir, num, offset)
        else if gone then (None, Panicked)
        else if len <= 1 then MoveAreas(refs', order, len, true, i + 1, dir, num, offset)
        else if i >= len then (now, Panicked)
        else MoveAreas(refs', Delete(order, len, i), len - 1, false, i + 1, dir, num, offset)
  }

  function Identity(n: nat): (s: seq<nat>)
    ensures |s| == n && forall k :: 0 <= k < n ==> s[k] == k
  {
    seq(n, k requires 0 <= k < n => k)
  }

  function AdjustMerges(merges: Option<seq<string>>, dir: Direction, num: int, offset: int)
    : (left: (Option<seq<string>>, Outcome))
  {
    if merges.None? then (None, Done)
    else
      var refs := merges.value;
      MoveAreas(refs, Identity(|refs|), |refs|, false, 0, dir, num, offset)
  }

  // ---------- auto filter

  function Unhide(rows: seq<Row>, first: int, last: int): (rows': seq<Row>)
    ensures |rows'| == |rows|
    ensures forall i :: 0 <= i < |rows| ==>
              rows'[i] == if first < rows[i].R <= last then rows[i].(attrs := rows[i].attrs.(Hidden := false)) else rows[i]
  {
    seq(|rows|, i requires 0 <= i < |rows| =>
      if first < rows[i].R <= last then rows[i].(attrs := rows[i].attrs.(Hidden := false)) else rows[i])
  }

  function AdjustFilter(filter: Option<string>, rows: seq<Row>, dir: Direction, num: int, offset: int)
    : (result: (Option<string>, seq<Row>, Outcome))
  {
    if filter.None? then (None, rows, Done)
    else
      var parts := SplitColon(filter.value);
      if |parts| < 2 then (filter, rows, Panicked)
      else
        var first, last := CellNameToCoordinates(parts[0]), CellNameToCoordinates(parts[1]);
        if first.Err? then (filter, rows, Failed(first.error))
        else if last.Err? then (filter, rows, Failed(last.error))
        else
          var ((c1, r1), (c2, r2)) := (first.value, last.value);
          if (dir.Rows? && r1 == num && offset < 0) || (dir.Columns? && c1 == num && c2 == num) then
            (None, Unhide(rows, r1, r2), Done)
          else if dir.Rows? then
            var a := if r1 >= num then NameOf(c1, r1 + offset) else parts[0];
            var b := if r2 >= num then NameOf(c2, r2 + offset) else parts[1];
            (Some(a + ":" + b), rows, Done)
          else
            var b := if c2 >= num then NameOf(c2 + offset, r2) else parts[1];
            (Some(parts[0] + ":" + b), rows, Done)
  }

  // ---------- making rows and cells contiguous

  /** The last row numbered r, or -1: the entry that the map of existing rows ends up with. */
  function LastNumbered(rows: seq<Row>, r: int): (k: int)
    ensures -1 <= k < |rows|
    ensures k >= 0 ==> rows[k].R == r
    ensures forall i :: k < i < |rows| ==> rows[i].R != r
  {
    if rows == [] then -1
    else if rows[|rows| - 1].R == r then |rows| - 1
    else LastNumbered(rows[..|rows| - 1], r)
  }

  function RowCount(rows: seq<Row>): (n: nat) {
    var n := |rows|;
    if n >= 1 && rows[n - 1].R >= n then rows[n - 1].R else n
  }

  /** checkSheet: line i + 1 is the last row with that number, or a blank one. */
  function CheckSheet(rows: seq<Row>): (rows': seq<Row>)
    ensures |rows'| == RowCount(rows)
    ensures forall i :: 0 <= i < |rows'| ==>
              rows'[i] == var k := LastNumbered(rows, i + 1); if k >= 0 then rows[k] else BlankRow(i + 1)
  {
    seq(RowCount(rows), i requires 0 <= i < RowCount(rows) =>
      var k := LastNumbered(rows, i + 1); if k >= 0 then rows[k] else BlankRow(i + 1))
  }

  function BlankCells(n: nat, r: nat): (C: seq<Cell>)
    ensures |C| == n && forall j :: 0 <= j < n ==> C[j] == BlankCell(j + 1, r)
  {
    seq(n, j requires 0 <= j < n => BlankCell(j + 1, r))
  }

  /** The inner loop of checkRow: old cells are put where their names say, from the k-th on. */
  function PlaceCells(list: seq<Cell>, cells: seq<Cell>, k: nat): (placed: (seq<Cell>, Outcome))
    requires k <= |cells|
    decreases |cells| - k
  {
    if k == |cells| then (list, Done)
    else
      match CellNameToCoordinates(cells[k].R)
      case Err(e) => (list, Failed(e))
      case Ok((col, _)) =>
        if 1 <= col <= |list| then PlaceCells(list[col - 1 := cells[k]], cells, k + 1) else (list, Panicked)
  }

  function CheckCells(C: seq<Cell>, r: nat): (checked: (seq<Cell>, Outcome)) {
    if C == [] then (C, Done)
    else
      match CellNameToCoordinates(C[|C| - 1].R)
      case Err(e) => (C, Failed(e))
      case Ok((lastCol, _)) =>
        if |C| < lastCol then PlaceCells(BlankCells(lastCol, r), C, 0) else (C, Done)
  }

  /** checkRow from row index i on: it stops at the first row that fails. */
  function CheckRows(rows: seq<Row>, i: nat): (checked: (seq<Row>, Outcome))
    requires i <= |rows|
    decreases |rows| - i
  {
    if i == |rows| then (rows, Done)
    else
      var (C, o) := CheckCells(rows[i].C, i + 1);
      var rows' := rows[i := rows[i].(C := C)];
      if o.Done? then CheckRows(rows', i + 1) else (rows', o)
  }

  // ---------- the whole adjustment

  /** adjustHelper; the error of its last step, checkRow, is discarded, a panic is not. */
  function AdjustHelper(s: Sheet, dir: Direction, num: int, offset: int): (result: (Sheet, Outcome)) {
    var s1 := s.(rows := if dir.Rows? then AdjustRows(s.rows, num, offset) else AdjustCols(s.rows, num, offset));
    var (links, o2) := AdjustLinks(s1.links, dir, num, offset);
    var s2 := s1.(links := links);
    if !o2.Done? then (s2, o2)
    else
      var (merges, o3) := AdjustMerges(s2.merges, dir, num, offset);
      var s3 := s2.(merges := merges);
      if !o3.Done? then (s3, o3)
      else
        var (filter, rows, o4) := AdjustFilter(s3.filter, s3.rows, dir, num, offset);
        var s4 := s3.(filter := filter, rows := rows);
        if !o4.Done? then (s4, o4)
        else
          var (rows', o5) := CheckRows(CheckSheet(s4.rows), 0);
          (s4.(rows := rows'), if o5.Panicked? then Panicked else Done)
  }
}
