/**
 The worksheet object and its operations, step by step as the library runs them. Every method is
 proved against its specification in AdjustSpec, EditSpec or CellSpec.
 */
module Worksheets {
  import opened Wrappers
  import opened Text
  import opened CellNames
  import opened SheetModel
  import opened AdjustSpec
  import opened EditSpec
  import opened CellSpec
  import Addresses
  import SheetEdits
  import Duplicate

  class Worksheet {
    var rows: seq<Row>
    var hyperlinks: Option<seq<Hyperlink>>
    var mergeCells: Option<seq<string>>
    var autoFilter: Option<string>
    var cols: Option<seq<Col>>
    var formulas: seq<string>

    /** The sheet that the fields hold. */
    function State(): (s: Sheet)
      reads this
    {
      Sheet(rows, hyperlinks, mergeCells, autoFilter, cols, formulas)
    }

    constructor ()
      ensures State() == EMPTY_SHEET
    {
      rows, hyperlinks, mergeCells, autoFilter, cols, formulas := [], None, None, None, None, [];
    }

    // ---------- adjust.go

    static method AjustSingleRowDimensions(r: Row, num: int) returns (r': Row)
      ensures r' == RenumberRow(r, num)
    {
      hide RenumberCell;
      r' := r.(R := num);
      for i := 0 to |r.C|
        invariant r'.R == num && r'.attrs == r.attrs && |r'.C| == |r.C|
        invariant forall j :: 0 <= j < |r.C| ==> r'.C[j] == if j < i then RenumberCell(r.C[j], num) else r.C[j]
      {
        r' := r'.(C := r'.C[i := RenumberCell(r'.C[i], num)]);
      }
      assert r'.C == RenumberRow(r, num).C;
    }

    method AdjustRowDimensions(num: int, offset: int)
      modifies `rows
      ensures rows == AdjustRows(old(rows), num, offset)
    {
      hide RenumberRow;
      for i := 0 to |rows|
        invariant |rows| == |old(rows)|
        invariant forall k :: 0 <= k < |rows| ==>
                    rows[k] == if k < i then ShiftRow(old(rows)[k], num, offset) else old(rows)[k]
      {
        var newRow := rows[i].R + offset;
        if rows[i].R >= num && newRow > 0 {
          var r := AjustSingleRowDimensions(rows[i], newRow);
          rows := rows[i := r];
        }
      }
      assert rows == AdjustRows(old(rows), num, offset);
    }

    method AdjustColDimensions(num: int, offset: int)
      modifies `rows
      ensures rows == AdjustCols(old(rows), num, offset)
    {
      hide CellNameToCoordinates, CoordinatesToCellName;
      for i := 0 to |rows|
        invariant |rows| == |old(rows)|
        invariant forall k :: 0 <= k < |rows| ==>
                    rows[k] == if k < i then ShiftCells(old(rows)[k], num, offset) else old(rows)[k]
      {
        var r := rows[i];
        for j := 0 to |r.C|
          invariant r.R == rows[i].R && r.attrs == rows[i].attrs && |r.C| == |rows[i].C|
          invariant forall k :: 0 <= k < |r.C| ==>
                      r.C[k] == if k < j then ShiftCell(rows[i].C[k], num, offset) else rows[i].C[k]
        {
          var (cellCol, cellRow) := CoordsOf(r.C[j].R);
          if num <= cellCol {
            var newCol := cellCol + offset;
            if newCol > 0 {
              r := r.(C := r.C[j := r.C[j].(R := NameOf(newCol, cellRow))]);
            }
          }
        }
        assert r.C == ShiftCells(rows[i], num, offset).C;
        rows := rows[i := r];
      }
      assert rows == AdjustCols(old(rows), num, offset);
    }

    /** Ranging over the original slice header: store is its backing array, len the current length. */
    method AdjustHyperlinks(dir: Direction, num: int, offset: int) returns (o: Outcome)
      modifies `hyperlinks
      ensures (hyperlinks, o) == AdjustLinks(old(hyperlinks), dir, num, offset)
    {
      hide OnLine, ShiftRef, Delete;
      if hyperlinks == None || hyperlinks.value == [] {
        return Done;
      }
      if offset < 0 {
        var store, len, gone := hyperlinks.value, |hyperlinks.value|, false;
        ghost var all := RemoveLinks(store, len, gone, 0, dir, num);
        assert store[..len] == store;
        for i := 0 to |store|
          invariant |store| == |old(hyperlinks).value| && len <= |store|
          invariant hyperlinks == if gone then None else Some(store[..len])
          invariant RemoveLinks(store, len, gone, i, dir, num) == all
        {
          if OnLine(store[i].Ref, dir, num) {
            if gone {
              return Panicked;
            }
            if len > 1 {
              if i >= len {
                return Panicked;
              }
              store := Delete(store, len, i);
              len := len - 1;
              hyperlinks := Some(store[..len]);
            } else {
              gone := true;
              hyperlinks := None;
            }
          }
        }
      }
      if hyperlinks == None {
        return Done;
      }
      var links := hyperlinks.value;
      for i := 0 to |links|
        invariant hyperlinks.Some? && |hyperlinks.value| == |links|
        invariant forall k :: 0 <= k < |links| ==>
                    hyperlinks.value[k] ==
                    if k < i then links[k].(Ref := ShiftRef(links[k].Ref, dir, num, offset)) else links[k]
      {
        var link := hyperlinks.value[i];
        hyperlinks := Some(hyperlinks.value[i := link.(Ref := ShiftRef(link.Ref, dir, num, offset))]);
      }
      assert hyperlinks.value == ShiftLinks(links, dir, num, offset);
      return Done;
    }

    /** The slice holds pointers to areas: order is its backing array of pointers, refs what they point to. */
    method AdjustMergeCells(dir: Direction, num: int, offset: int) returns (o: Outcome)
      modifies `mergeCells
      ensures (mergeCells, o) == AdjustMerges(old(mergeCells), dir, num, offset)
    {
      hide MoveArea;
      if mergeCells == None {
        return Done;
      }
      var refs, gone := mergeCells.value, false;
      var order: seq<nat> := Identity(|refs|);
      var len: nat := |refs|;
      assert Visible(refs, order, len) == refs;
      for i := 0 to |order|
        invariant |refs| == |old(mergeCells).value| && len <= |order| == |refs|
        invariant forall k :: 0 <= k < |order| ==> order[k] < |refs|
        invariant mergeCells == if gone then None else Some(Visible(refs, order, len))
        invariant MoveAreas(refs, order, len, gone, i, dir, num, offset) == AdjustMerges(old(mergeCells), dir, num, offset)
      {
        match MoveArea(refs[order[i]], dir, num, offset)
        case BadArea => return Panicked;
        case BadCorner(e) => return Failed(e);
        case Moved(ref, single) =>
          var pointer := order[i];
          if single {
            if gone {
              return Panicked;
            }
            if len > 1 {
              if i >= len {
                return Panicked;
              }
              order := Delete(order, len, i);
              len := len - 1;
            } else {
              gone := true;
            }
          }
          refs := refs[pointer := ref];
          mergeCells := if gone then None else Some(Visible(refs, order, len));
      }
      return Done;
    }

    method AdjustAutoFilter(dir: Direction, num: int, offset: int) returns (o: Outcome)
      modifies `autoFilter, `rows
      ensures (autoFilter, rows, o) == AdjustFilter(old(autoFilter), old(rows), dir, num, offset)
    {
      hide CellNameToCoordinates, NameOf, SplitColon;
      if autoFilter == None {
        return Done;
      }
      var rng := SplitColon(autoFilter.value);
      if |rng| < 2 {
        return Panicked;
      }
      var firstCell, lastCell := rng[0], rng[1];
      var first := CellNameToCoordinates(firstCell);
      if first.Err? {
        return Failed(first.error);
      }
      var last := CellNameToCoordinates(lastCell);
      if last.Err? {
        return Failed(last.error);
      }
      var (firstCol, firstRow) := first.value;
      var (lastCol, lastRow) := last.value;
      if (dir == Rows && firstRow == num && offset < 0) || (dir == Columns && firstCol == num && lastCol == num) {
        autoFilter := None;
        for i := 0 to |rows|
          invariant |rows| == |old(rows)| && autoFilter == None
          invariant forall k :: 0 <= k < |rows| ==>
                      rows[k] == if k < i then Unhide(old(rows), firstRow, lastRow)[k] else old(rows)[k]
        {
          var r := rows[i];
          if r.R > firstRow && r.R <= lastRow {
            rows := rows[i := r.(attrs := r.attrs.(Hidden := false))];
          }
        }
        assert rows == Unhide(old(rows), firstRow, lastRow);
        return Done;
      }
      if dir == Rows {
        if firstRow >= num {
          firstCell := NameOf(firstCol, firstRow + offset);
        }
        if lastRow >= num {
          lastCell := NameOf(lastCol, lastRow + offset);
        }
      } else {
        if lastCol >= num {
          lastCell := NameOf(lastCol + offset, lastRow);
        }
      }
      autoFilter := Some(firstCell + ":" + lastCell);
      return Done;
    }

    method AdjustHelper(dir: Direction, num: int, offset: int) returns (o: Outcome)
      modifies this
      ensures (State(), o) == AdjustSpec.AdjustHelper(old(State()), dir, num, offset)
    {
      hide AdjustRows, AdjustCols, AdjustLinks, AdjustMerges, AdjustFilter, AdjustSpec.CheckSheet, CheckRows;
      if dir == Rows {
        AdjustRowDimensions(num, offset);
      } else {
        AdjustColDimensions(num, offset);
      }
      o := AdjustHyperlinks(dir, num, offset);
      if o != Done {
        return;
      }
      o := AdjustMergeCells(dir, num, offset);
      if o != Done {
        return;
      }
      o := AdjustAutoFilter(dir, num, offset);
      if o != Done {
        return;
      }
      CheckSheet();
      o := CheckRow();
      if o != Panicked {
        o := Done;
      }
    }

    // ---------- checkSheet (excelize.go) and checkRow (rows.go)

    method CheckSheet()
      modifies `rows
      ensures rows == AdjustSpec.CheckSheet(old(rows))
    {
      hide LastNumbered;
      var row := |rows|;
      if row >= 1 {
        var lastRow := rows[row - 1].R;
        if lastRow >= row {
          row := lastRow;
        }
      }
      var existsRows := ExistingRows(rows);
      var sheetData: seq<Row> := [];
      for i := 0 to row
        invariant |sheetData| == i
        invariant forall k :: 0 <= k < i ==> sheetData[k] == AdjustSpec.CheckSheet(rows)[k]
      {
        if i + 1 in existsRows {
          sheetData := sheetData + [rows[existsRows[i + 1]]];
        } else {
          sheetData := sheetData + [BlankRow(i + 1)];
        }
      }
      assert sheetData == AdjustSpec.CheckSheet(rows);
      rows := sheetData;
    }

    /** The map of row numbers to indices that checkSheet builds; a repeated number keeps its last index. */
    static method ExistingRows(rows: seq<Row>) returns (existsRows: map<int, int>)
      ensures forall r :: r in existsRows <==> LastNumbered(rows, r) >= 0
      ensures forall r :: r in existsRows ==> existsRows[r] == LastNumbered(rows, r)
    {
      existsRows := map[];
      for k := 0 to |rows|
        invariant forall r :: r in existsRows <==> LastNumbered(rows[..k], r) >= 0
        invariant forall r :: r in existsRows ==> existsRows[r] == LastNumbered(rows[..k], r)
      {
        assert rows[..k + 1][..k] == rows[..k];
        existsRows := existsRows[rows[k].R := k];
      }
      assert rows[..|rows|] == rows;
    }

    method CheckRow() returns (o: Outcome)
      modifies `rows
      ensures (rows, o) == CheckRows(old(rows), 0)
    {
      hide CellNameToCoordinates, CellName;
      for rowIdx := 0 to |rows|
        invariant |rows| == |old(rows)|
        invariant CheckRows(rows, rowIdx) == CheckRows(old(rows), 0)
      {
        var C, oneRow := CheckOneRow(rows[rowIdx].C, rowIdx + 1);
        rows := rows[rowIdx := rows[rowIdx].(C := C)];
        if oneRow != Done {
          return oneRow;
        }
      }
      return Done;
    }

    /** The body of checkRow's loop, on the cells of one row. */
    static method CheckOneRow(cells: seq<Cell>, row: nat) returns (C: seq<Cell>, o: Outcome)
      ensures (C, o) == CheckCells(cells, row)
    {
      hide CellNameToCoordinates, CellName;
      var colCount := |cells|;
      if colCount == 0 {
        return cells, Done;
      }
      var last := CellNameToCoordinates(cells[colCount - 1].R);
      if last.Err? {
        return cells, Failed(last.error);
      }
      var lastCol := last.value.0;
      if colCount >= lastCol {
        return cells, Done;
      }
      var newlist: seq<Cell> := [];
      for colIdx := 0 to lastCol
        invariant |newlist| == colIdx && forall j :: 0 <= j < colIdx ==> newlist[j] == BlankCell(j + 1, row)
      {
        newlist := newlist + [BlankCell(colIdx + 1, row)];
      }
      assert newlist == BlankCells(lastCol, row);
      C := newlist;
      for colIdx := 0 to |cells|
        invariant PlaceCells(C, cells, colIdx) == PlaceCells(newlist, cells, 0)
      {
        var at := CellNameToCoordinates(cells[colIdx].R);
        if at.Err? {
          return C, Failed(at.error);
        }
        var colNum := at.value.0;
        if colNum < 1 || colNum > |C| {
          return C, Panicked;
        }
        C := C[colNum - 1 := cells[colIdx]];
      }
      return C, Done;
    }

    // ---------- rows.go and col.go

    method InsertRow(row: int) returns (o: Outcome)
      modifies this
      ensures (State(), o) == EditSpec.InsertRow(old(State()), row)
    {
      hide AdjustSpec.AdjustHelper;
      if row < 1 {
        return Failed(InvalidRowNumber(row));
      }
      o := AdjustHelper(Rows, row, 1);
    }

    method RemoveRow(row: int) returns (o: Outcome)
      modifies this
      ensures (State(), o) == EditSpec.RemoveRow(old(State()), row)
    {
      hide AdjustSpec.AdjustHelper;
      if row < 1 {
        return Failed(InvalidRowNumber(row));
      }
      if row > |rows| {
        return Done;
      }
      for rowIdx := 0 to |rows|
        invariant rows == old(rows) && State() == old(State())
        invariant forall k :: 0 <= k < rowIdx ==> rows[k].R != row
      {
        if rows[rowIdx].R == row {
          assert FirstNumbered(rows, row) == rowIdx;
          rows := rows[..rowIdx] + rows[rowIdx + 1..];
          o := AdjustHelper(Rows, row, -1);
          return;
        }
      }
      return Done;
    }

    method DuplicateRow(row: int) returns (o: Outcome)
      modifies this
      ensures (State(), o) == EditSpec.DuplicateRowTo(old(State()), row, row + 1)
      ensures SheetEdits.WellFormed(old(State())) && 1 <= row <= |old(rows)| ==>
                o == Done && Duplicate.LineDuplicated(rows, old(rows), row, row + 1)
    {
      hide EditSpec.DuplicateRowTo, SheetEdits.WellFormed, Duplicate.LineDuplicated;
      o := DuplicateRowTo(row, row + 1);
      if SheetEdits.WellFormed(old(State())) && 1 <= row <= |old(rows)| {
        Duplicate.DuplicatesBelow(old(State()), row);
      }
    }

    method FindRow(row: int) returns (k: int)
      ensures k == FirstNumbered(rows, row)
    {
      for i := 0 to |rows|
        invariant forall j :: 0 <= j < i ==> rows[j].R != row
      {
        if rows[i].R == row {
          return i;
        }
      }
      return -1;
    }

    method DuplicateRowTo(row: int, row2: int) returns (o: Outcome)
      modifies this
      ensures (State(), o) == EditSpec.DuplicateRowTo(old(State()), row, row2)
    {
      hide AdjustSpec.AdjustHelper, FirstNumbered, RenumberRow;
      if row < 1 {
        return Failed(InvalidRowNumber(row));
      }
      if row > |rows| || row2 < 1 || row == row2 {
        return Done;
      }
      var k := FindRow(row);
      if k < 0 {
        return Done;
      }
      var rowCopy := rows[k];
      o := AdjustHelper(Rows, row2, 1);
      if o != Done {
        return;
      }
      // The copy shares its cells with the row it was taken from, and the adjustment renames
      // those cells in place.
      if rowCopy.R >= row2 && rowCopy.R + 1 > 0 {
        rowCopy := AjustSingleRowDimensions(rowCopy, rowCopy.R + 1);
      }
      var idx2 := FindRow(row2);
      if idx2 == -1 && |rows| >= row2 {
        return Done;
      }
      rowCopy := AjustSingleRowDimensions(rowCopy, row2);
      if idx2 != -1 {
        rows := rows[idx2 := rowCopy];
      } else {
        rows := rows + [rowCopy];
      }
      return Done;
    }

    method InsertCol(col: string) returns (o: Outcome)
      modifies this
      ensures (State(), o) == EditSpec.InsertCol(old(State()), col)
    {
      hide AdjustSpec.AdjustHelper, ColumnNumber;
      var num := ColumnNameToNumber(col);
      if num.Err? {
        return Failed(num.error);
      }
      o := AdjustHelper(Columns, num.value, 1);
    }

    method RemoveCol(col: string) returns (o: Outcome)
      modifies this
      ensures (State(), o) == EditSpec.RemoveCol(old(State()), col)
    {
      hide AdjustSpec.AdjustHelper, ColumnNumber, DropCell;
      var num := ColumnNameToNumber(col);
      if num.Err? {
        return Failed(num.error);
      }
      for rowIdx := 0 to |rows|
        invariant |rows| == |old(rows)| && State() == old(State()).(rows := rows)
        invariant forall k :: 0 <= k < |rows| ==> rows[k] == if k < rowIdx then DropCell(old(rows)[k], col) else old(rows)[k]
      {
        var r := RemoveColFromRow(rows[rowIdx], col);
        rows := rows[rowIdx := r];
      }
      assert rows == DropColumn(old(rows), col);
      o := AdjustHelper(Columns, num.value, -1);
    }

    /** The body of RemoveCol's loop, on one row. */
    static method RemoveColFromRow(r: Row, col: string) returns (r': Row)
      ensures r' == DropCell(r, col)
    {
      hide Letters;
      ghost var letters := AllLetters(r.C);
      for colIdx := 0 to |r.C|
        invariant forall k :: 0 <= k < colIdx ==> letters[k] != col
      {
        var colName := Letters(r.C[colIdx].R);
        if colName == col {
          assert letters[colIdx] == col;
          return r.(C := r.C[..colIdx] + r.C[colIdx + 1..]);
        }
      }
      return r;
    }

    // ---------- growing the grid (sheet.go)

    static method FillColumns(r: Row, col: int, row: nat) returns (r': Row)
      ensures r' == CellSpec.FillColumns(r, col, row)
    {
      hide CellName;
      r' := r;
      var cellCount := |r.C|;
      if cellCount < col {
        for colIdx := cellCount to col
          invariant r'.R == r.R && r'.attrs == r.attrs && |r'.C| == colIdx
          invariant forall j :: 0 <= j < colIdx ==> r'.C[j] == if j < cellCount then r.C[j] else BlankCell(j + 1, row)
        {
          r' := r'.(C := r'.C + [BlankCell(colIdx + 1, row)]);
        }
      }
      assert r'.C == CellSpec.FillColumns(r, col, row).C;
    }

    method PrepareSheetXML(col: int, row: int)
      requires row >= 1
      modifies `rows
      ensures rows == Prepare(old(rows), col, row)
    {
      hide CellName;
      var rowCount := |rows|;
      if rowCount < row {
        for rowIdx := rowCount to row
          invariant |rows| == rowIdx
          invariant forall i :: 0 <= i < rowIdx ==> rows[i] == if i < rowCount then old(rows)[i] else BlankRow(i + 1)
        {
          rows := rows + [BlankRow(rowIdx + 1)];
        }
      }
      assert rows == GrowRows(old(rows), row);
      var rowData := FillColumns(rows[row - 1], col, row);
      rows := rows[row - 1 := rowData];
    }

    method MakeContiguousColumns(fromRow: int, toRow: int, colCount: int)
      requires 1 <= fromRow && toRow - 1 <= |rows|
      modifies `rows
      ensures rows == Contiguous(old(rows), fromRow, toRow, colCount)
    {
      hide CellSpec.FillColumns;
      var row := fromRow;
      while row < toRow
        invariant fromRow <= row && (row <= toRow || row == fromRow) && |rows| == |old(rows)|
        invariant forall i :: 0 <= i < |rows| ==>
                    rows[i] == if fromRow - 1 <= i < row - 1 then CellSpec.FillColumns(old(rows)[i], colCount, i + 1) else old(rows)[i]
      {
        var rowData := FillColumns(rows[row - 1], colCount, row);
        rows := rows[row - 1 := rowData];
        row := row + 1;
      }
      assert rows == Contiguous(old(rows), fromRow, toRow, colCount);
    }

    // ---------- merged areas (cell.go)

    method MergeCellsParser(axis: string) returns (r: Result<string>)
      ensures r == Resolve(mergeCells, axis)
    {
      hide CellInArea;
      var cell := ToUpper(axis);
      if mergeCells.Some? {
        var refs := mergeCells.value;
        for i := 0 to |refs|
          invariant ResolveFrom(refs, i, cell) == Resolve(mergeCells, axis)
        {
          var inside := CellInArea(cell, refs[i]);
          if inside.Err? {
            return Err(inside.error);
          }
          if inside.value {
            cell := SplitColon(refs[i])[0];
          }
        }
      }
      return Ok(cell);
    }

    method MergeCell(hcell: string, vcell: string) returns (o: Outcome)
      modifies `mergeCells
      ensures (State(), o) == CellSpec.MergeCell(old(State()), hcell, vcell)
    {
      hide CellNameToCoordinates, NameOf, Clash, SplitColon;
      var first := CellNameToCoordinates(hcell);
      if first.Err? {
        return Failed(first.error);
      }
      var last := CellNameToCoordinates(vcell);
      if last.Err? {
        return Failed(last.error);
      }
      var (hcol, hrow) := first.value;
      var (vcol, vrow) := last.value;
      if hcol == vcol && hrow == vrow {
        return Done;
      }
      if vcol < hcol {
        hcol, vcol := vcol, hcol;
      }
      if vrow < hrow {
        hrow, vrow := vrow, hrow;
      }
      var h, v := NameOf(hcol, hrow), NameOf(vcol, vrow);
      if mergeCells.Some? {
        var refs := mergeCells.value;
        for i := 0 to |refs|
          invariant ScanAreas(refs, i, h, v) == ScanAreas(refs, 0, h, v)
        {
          if |SplitColon(refs[i])| != 2 {
            return Failed(InvalidArea(refs[i]));
          }
          if Clash(h, v, refs[i]) {
            return Done;
          }
        }
        mergeCells := Some(refs + [h + ":" + v]);
      } else {
        mergeCells := Some([h + ":" + v]);
      }
      return Done;
    }

    // ---------- writers

    /** Grows the grid to the resolved position of the address, which it returns. */
    method PrepareCell(axis: string) returns (r: Result<(int, int)>)
      modifies `rows
      ensures match CellSpec.PrepareCell(old(State()), axis)
              case Err(e) => r == Err(e) && rows == old(rows)
              case Ok((rows', col, row)) => r == Ok((col, row)) && rows == rows'
    {
      hide CellNameToCoordinates, Prepare, Resolve;
      var cell := MergeCellsParser(axis);
      if cell.Err? {
        return Err(cell.error);
      }
      var at := CellNameToCoordinates(cell.value);
      if at.Err? {
        return Err(at.error);
      }
      var (col, row) := at.value;
      AcceptedIsPositive(cell.value);
      PrepareSheetXML(col, row);
      return Ok((col, row));
    }

    method PrepareCellStyle(col: int, style: int) returns (s: int)
      ensures s == ColumnStyle(cols, col, style)
    {
      s := style;
      if cols.Some? && style == 0 {
        var cs := cols.value;
        for i := 0 to |cs|
          invariant s == LastStyle(cs[..i], col, style)
        {
          assert cs[..i + 1][..i] == cs[..i];
          if cs[i].Min <= col && col <= cs[i].Max {
            s := cs[i].Style;
          }
        }
        assert cs[..|cs|] == cs;
      }
    }

    method SetCell(axis: string, kind: string, value: string, leadingSpace: bool) returns (o: Outcome)
      modifies `rows
      ensures (State(), o) == CellSpec.SetCell(old(State()), axis, kind, value, leadingSpace)
    {
      hide CellSpec.PrepareCell, ColumnStyle;
      var at := PrepareCell(axis);
      if at.Err? {
        return Failed(at.error);
      }
      var (col, row) := at.value;
      var r := rows[row - 1];
      var d := r.C[col - 1].data;
      var style := PrepareCellStyle(col, d.S);
      var d' := d.(preserveSpace := d.preserveSpace || leadingSpace, S := style, T := kind, V := value);
      rows := rows[row - 1 := r.(C := r.C[col - 1 := r.C[col - 1].(data := d')])];
      return Done;
    }

    method SetCellStr(axis: string, value: string) returns (o: Outcome)
      modifies `rows
      ensures (State(), o) == CellSpec.SetCellStr(old(State()), axis, value)
      ensures Addresses.Writes(State(), o, old(State()), axis, if |value| > 32767 then value[..32767] else value)
    {
      hide CellSpec.SetCell, Addresses.Writes;
      var v := value;
      if |v| > 32767 {
        v := v[0..32767];
      }
      o := SetCell(axis, "str", v, |v| > 0 && v[0] == ' ');
      Addresses.SetCellReadsBack(old(State()), axis, "str", v, |v| > 0 && v[0] == ' ');
    }

    method SetCellBool(axis: string, value: bool) returns (o: Outcome)
      modifies `rows
      ensures (State(), o) == CellSpec.SetCellBool(old(State()), axis, value)
      ensures Addresses.Writes(State(), o, old(State()), axis, if value then "1" else "0")
    {
      hide CellSpec.SetCell, Addresses.Writes;
      o := SetCell(axis, "b", if value then "1" else "0", false);
      Addresses.SetCellReadsBack(old(State()), axis, "b", if value then "1" else "0", false);
    }

    method SetCellInt(axis: string, value: int) returns (o: Outcome)
      modifies `rows
      ensures (State(), o) == CellSpec.SetCellInt(old(State()), axis, value)
      ensures Addresses.Writes(State(), o, old(State()), axis, ItoaInt(value))
    {
      hide CellSpec.SetCell, ItoaInt, Addresses.Writes;
      o := SetCell(axis, "", ItoaInt(value), false);
      Addresses.SetCellReadsBack(old(State()), axis, "", ItoaInt(value), false);
    }

    method SetCellDefault(axis: string, value: string) returns (o: Outcome)
      modifies `rows
      ensures (State(), o) == CellSpec.SetCellDefault(old(State()), axis, value)
      ensures Addresses.Writes(State(), o, old(State()), axis, value)
    {
      hide CellSpec.SetCell, Addresses.Writes;
      o := SetCell(axis, "", value, false);
      Addresses.SetCellReadsBack(old(State()), axis, "", value, false);
    }

    method SetCellFormula(axis: string, formula: string) returns (o: Outcome)
      modifies `rows, `formulas
      ensures (State(), o) == CellSpec.SetCellFormula(old(State()), axis, formula)
    {
      hide CellSpec.PrepareCell;
      var at := PrepareCell(axis);
      if at.Err? {
        return Failed(at.error);
      }
      var (col, row) := at.value;
      var r := rows[row - 1];
      var cell := r.C[col - 1];
      if formula == "" {
        rows := rows[row - 1 := r.(C := r.C[col - 1 := cell.(data := cell.data.(F := None))])];
      } else if cell.data.F.Some? && cell.data.F.value < |formulas| {
        formulas := formulas[cell.data.F.value := formula];
      } else {
        rows := rows[row - 1 := r.(C := r.C[col - 1 := cell.(data := cell.data.(F := Some(|formulas|)))])];
        formulas := formulas + [formula];
      }
      return Done;
    }

    method SetRowHeight(row: int, height: real) returns (o: Outcome)
      modifies `rows
      ensures (State(), o) == CellSpec.SetRowHeight(old(State()), row, height)
    {
      hide Prepare;
      if row < 1 {
        return Failed(InvalidRowNumber(row));
      }
      PrepareSheetXML(0, row);
      var r := rows[row - 1];
      rows := rows[row - 1 := r.(attrs := r.attrs.(Ht := height, CustomHeight := true))];
      return Done;
    }

    method GetCellStyle(axis: string) returns (r: Result<int>)
      modifies `rows
      ensures (State(), r) == CellSpec.GetCellStyle(old(State()), axis)
    {
      hide CellSpec.PrepareCell, ColumnStyle;
      var at := PrepareCell(axis);
      if at.Err? {
        return Err(at.error);
      }
      var (col, row) := at.value;
      var style := PrepareCellStyle(col, rows[row - 1].C[col - 1].data.S);
      return Ok(style);
    }

    method SetCellStyle(hcell: string, vcell: string, styleID: int) returns (o: Outcome)
      modifies `rows
      ensures (State(), o) == CellSpec.SetCellStyle(old(State()), hcell, vcell, styleID)
    {
      hide CellNameToCoordinates, Prepare, Contiguous, StyleRow;
      var first := CellNameToCoordinates(hcell);
      if first.Err? {
        return Failed(first.error);
      }
      var last := CellNameToCoordinates(vcell);
      if last.Err? {
        return Failed(last.error);
      }
      AcceptedIsPositive(hcell);
      AcceptedIsPositive(vcell);
      var (hcol, hrow) := first.value;
      var (vcol, vrow) := last.value;
      if vcol < hcol {
        vcol, hcol := hcol, vcol;
      }
      if vrow < hrow {
        vrow, hrow := hrow, vrow;
      }
      PrepareSheetXML(vcol, vrow);
      MakeContiguousColumns(hrow, vrow, vcol);
      ghost var grown := rows;
      WideEnough(old(rows), hcol, hrow, vcol, vrow);
      for r := hrow - 1 to vrow
        invariant |rows| == |grown|
        invariant forall i :: 0 <= i < |rows| ==>
                    rows[i] == if hrow - 1 <= i < r then StyleRow(grown[i], hcol, vcol, styleID) else grown[i]
      {
        var row := StyleOneRow(rows[r], hcol, vcol, styleID);
        rows := rows[r := row];
      }
      assert rows == StyleRows(grown, hcol, hrow, vcol, vrow, styleID);
      return Done;
    }

    /** The inner loop of SetCellStyle, on one row. */
    static method StyleOneRow(r: Row, hcol: int, vcol: int, styleID: int) returns (r': Row)
      requires 1 <= hcol <= vcol <= |r.C|
      ensures r' == StyleRow(r, hcol, vcol, styleID)
    {
      r' := r;
      for k := hcol - 1 to vcol
        invariant r'.R == r.R && r'.attrs == r.attrs && |r'.C| == |r.C|
        invariant forall j :: 0 <= j < |r.C| ==>
                    r'.C[j] == if hcol - 1 <= j < k then StyleCell(r.C[j], styleID) else r.C[j]
      {
        r' := r'.(C := r'.C[k := StyleCell(r'.C[k], styleID)]);
      }
      assert r'.C == StyleRow(r, hcol, vcol, styleID).C;
    }

    // ---------- readers

    method GetCellStringFunc(axis: string, formula: bool) returns (r: Result<Option<CellData>>)
      ensures r == Find(State(), axis, formula)
    {
      hide CellNameToCoordinates, Resolve, ScanCells;
      var cell := MergeCellsParser(axis);
      if cell.Err? {
        return Err(cell.error);
      }
      var at := CellNameToCoordinates(cell.value);
      if at.Err? {
        return Err(at.error);
      }
      var row := at.value.1;
      var lastRowNum := 0;
      if |rows| > 0 {
        lastRowNum := rows[|rows| - 1].R;
      }
      if row > lastRowNum {
        return Ok(None);
      }
      assert rows[0..] == rows;
      for rowIdx := 0 to |rows|
        invariant ScanRows(rows[rowIdx..], row, cell.value, formula) == ScanRows(rows, row, cell.value, formula)
      {
        assert rows[rowIdx..][1..] == rows[rowIdx + 1..];
        if rows[rowIdx].R == row {
          var hit := ScanRow(rows[rowIdx].C, cell.value, formula);
          if hit.Some? {
            return Ok(hit);
          }
        }
      }
      return Ok(None);
    }

    /** The inner loop of getCellStringFunc. */
    static method ScanRow(C: seq<Cell>, axis: string, formula: bool) returns (hit: Option<CellData>)
      ensures hit == ScanCells(C, axis, formula)
    {
      assert C[0..] == C;
      for colIdx := 0 to |C|
        invariant ScanCells(C[colIdx..], axis, formula) == ScanCells(C, axis, formula)
      {
        assert C[colIdx..][1..] == C[colIdx + 1..];
        if axis == C[colIdx].R && (!formula || C[colIdx].data.F.Some?) {
          return Some(C[colIdx].data);
        }
      }
      return None;
    }

    method GetCellValue(axis: string) returns (r: Result<string>)
      ensures r == CellSpec.GetCellValue(State(), axis)
    {
      hide Find;
      var hit := GetCellStringFunc(axis, false);
      match hit
      case Err(e) => return Err(e);
      case Ok(None) => return Ok("");
      case Ok(Some(d)) => return Ok(d.V);
    }

    method GetCellFormula(axis: string) returns (r: Result<string>)
      ensures r == CellSpec.GetCellFormula(State(), axis)
    {
      hide Find;
      var hit := GetCellStringFunc(axis, true);
      match hit
      case Err(e) => return Err(e);
      case Ok(None) => return Ok("");
      case Ok(Some(d)) => return Ok(FormulaText(State(), d));
    }

    method GetCellHyperLink(axis: string) returns (r: Result<Option<Hyperlink>>)
      ensures r == CellSpec.GetCellHyperLink(State(), axis)
    {
      hide SplitCellName, Resolve;
      var parts := SplitCellName(axis);
      if parts.Err? {
        return Err(parts.error);
      }
      var cell := MergeCellsParser(axis);
      if cell.Err? {
        return Err(cell.error);
      }
      if hyperlinks.Some? {
        var links := hyperlinks.value;
        assert links[0..] == links;
        for i := 0 to |links|
          invariant FirstLink(links[i..], cell.value) == FirstLink(links, cell.value)
        {
          assert links[i..][1..] == links[i + 1..];
          if links[i].Ref == cell.value {
            return Ok(Some(links[i]));
          }
        }
      }
      return Ok(None);
    }

    method SetCellHyperLink(axis: string, link: string, linkType: string, rid: string) returns (o: Outcome)
      modifies `hyperlinks
      ensures (State(), o) == CellSpec.SetCellHyperLink(old(State()), axis, link, linkType, rid)
    {
      hide SplitCellName, Resolve;
      var parts := SplitCellName(axis);
      if parts.Err? {
        return Failed(parts.error);
      }
      var cell := MergeCellsParser(axis);
      if cell.Err? {
        return Failed(cell.error);
      }
      if hyperlinks == None {
        hyperlinks := Some([]);
      }
      if |hyperlinks.value| > 65529 {
        return Failed(TooManyLinks);
      }
      var linkData;
      if linkType == "External" {
        linkData := Hyperlink(cell.value, rid, "");
      } else if linkType == "Location" {
        linkData := Hyperlink(cell.value, "", link);
      } else {
        return Failed(InvalidLinkType(linkType));
      }
      hyperlinks := Some(hyperlinks.value + [linkData]);
      return Done;
    }
  }
}
