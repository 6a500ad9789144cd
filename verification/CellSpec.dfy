/**
 What the readers and writers of cell.go, the growing of the grid in sheet.go, SetRowHeight
 (rows.go), GetCellStyle and SetCellStyle (styles.go) make of a sheet.
 */
module CellSpec {
  import opened Wrappers
  import opened Text
  import opened CellNames
  import opened SheetModel

  // ---------- merged areas

  /** checkCellInArea; corners that do not parse read as (-1, -1). */
  function CellInArea(cell: string, area: string): (inside: Result<bool>) {
    match CellNameToCoordinates(cell)
    case Err(e) => Err(e)
    case Ok((col, row)) =>
      var parts := SplitColon(area);
      if |parts| != 2 then Ok(false)
      else
        var ((c1, r1), (c2, r2)) := (CoordsOf(parts[0]), CoordsOf(parts[1]));
        Ok(c1 <= col <= c2 && r1 <= row <= r2)
  }

  /** The loop of mergeCellsParser from area i on: an address found in an area becomes its first corner. */
  function ResolveFrom(refs: seq<string>, i: nat, axis: string): (cell: Result<string>)
    requires i <= |refs|
    decreases |refs| - i
  {
    if i == |refs| then Ok(axis)
    else
      match CellInArea(axis, refs[i])
      case Err(e) => Err(e)
      case Ok(inside) => ResolveFrom(refs, i + 1, if inside then SplitColon(refs[i])[0] else axis)
  }

  function Resolve(merges: Option<seq<string>>, axis: string): (cell: Result<string>) {
    match merges
    case None => Ok(ToUpper(axis))
    case Some(refs) => ResolveFrom(refs, 0, ToUpper(axis))
  }

  predicate Clash(h: string, v: string, area: string) {
    var parts := SplitColon(area);
    || CellInArea(h, area) == Ok(true)
    || CellInArea(v, area) == Ok(true)
    || (|parts| == 2 && CellInArea(parts[0], h + ":" + v) == Ok(true))
    || (|parts| == 2 && CellInArea(parts[1], h + ":" + v) == Ok(true))
  }

  datatype Scan = Free | Overlaps | Malformed(ref: string)

  /** The loop of MergeCell over the stored areas. */
  function ScanAreas(refs: seq<string>, i: nat, h: string, v: string): (scan: Scan)
    requires i <= |refs|
    decreases |refs| - i
  {
    if i == |refs| then Free
    else if |SplitColon(refs[i])| != 2 then Malformed(refs[i])
    else if Clash(h, v, refs[i]) then Overlaps
    else ScanAreas(refs, i + 1, h, v)
  }

  function Min(a: int, b: int): (m: int) { if a < b then a else b }

  function Max(a: int, b: int): (m: int) { if a < b then b else a }

  /** MergeCell: an area that clashes with a stored one leaves the sheet as it is, without an error. */
  function MergeCell(s: Sheet, hcell: string, vcell: string): (result: (Sheet, Outcome)) {
    var first, last := CellNameToCoordinates(hcell), CellNameToCoordinates(vcell);
    if first.Err? then (s, Failed(first.error))
    else if last.Err? then (s, Failed(last.error))
    else
      var ((c1, r1), (c2, r2)) := (first.value, last.value);
      if c1 == c2 && r1 == r2 then (s, Done)
      else
        var h, v := NameOf(Min(c1, c2), Min(r1, r2)), NameOf(Max(c1, c2), Max(r1, r2));
        match s.merges
        case None => (s.(merges := Some([h + ":" + v])), Done)
        case Some(refs) =>
          match ScanAreas(refs, 0, h, v)
          case Malformed(ref) => (s, Failed(InvalidArea(ref)))
          case Overlaps => (s, Done)
          case Free => (s.(merges := Some(refs + [h + ":" + v])), Done)
  }

  // ---------- growing the grid

  function GrowRows(rows: seq<Row>, row: int): (rows': seq<Row>)
    ensures |rows'| == Max(|rows|, row)
    ensures forall i :: 0 <= i < |rows'| ==> rows'[i] == if i < |rows| then rows[i] else BlankRow(i + 1)
  {
    if row <= |rows| then rows
    else rows + seq(row - |rows|, i requires 0 <= i < row - |rows| => BlankRow(|rows| + i + 1))
  }

  /** fillColumns. */
  function FillColumns(r: Row, col: int, row: nat): (r': Row)
    ensures r'.R == r.R && r'.attrs == r.attrs && |r'.C| == Max(|r.C|, col)
    ensures forall j :: 0 <= j < |r'.C| ==> r'.C[j] == if j < |r.C| then r.C[j] else BlankCell(j + 1, row)
  {
    if col <= |r.C| then r
    else r.(C := r.C + seq(col - |r.C|, j requires 0 <= j < col - |r.C| => BlankCell(|r.C| + j + 1, row)))
  }

  /** prepareSheetXML. */
  function Prepare(rows: seq<Row>, col: int, row: int): (rows': seq<Row>)
    requires row >= 1
    ensures |rows'| == Max(|rows|, row)
  {
    var grown := GrowRows(rows, row);
    grown[row - 1 := FillColumns(grown[row - 1], col, row)]
  }

  /** makeContiguousColumns over lines fromRow to toRow - 1. */
  function Contiguous(rows: seq<Row>, fromRow: int, toRow: int, col: int): (rows': seq<Row>)
    ensures |rows'| == |rows|
    ensures forall i :: 0 <= i < |rows| ==>
              rows'[i] == if fromRow - 1 <= i < toRow - 1 then FillColumns(rows[i], col, i + 1) else rows[i]
  {
    seq(|rows|, i requires 0 <= i < |rows| =>
      if fromRow - 1 <= i < toRow - 1 then FillColumns(rows[i], col, i + 1) else rows[i])
  }

  /** After growing, every cell of the rectangle exists. */
  lemma WideEnough(rows: seq<Row>, c1: int, r1: int, c2: int, r2: int)
    requires 1 <= c1 <= c2 && 1 <= r1 <= r2
    ensures var grown := Contiguous(Prepare(rows, c2, r2), r1, r2, c2);
            |grown| >= r2 && forall i :: r1 - 1 <= i < r2 ==> |grown[i].C| >= c2
  {
    hide CellName;
  }

  // ---------- writers

  /** prepareCell: the address is resolved through the merged areas and the grid grown to reach it. */
  function PrepareCell(s: Sheet, axis: string): (r: Result<(seq<Row>, int, int)>)
    ensures r.Ok? ==> var (rows, col, row) := r.value; 1 <= row <= |rows| && 1 <= col <= |rows[row - 1].C|
  {
    match Resolve(s.merges, axis)
    case Err(e) => Err(e)
    case Ok(cell) =>
      match CellNameToCoordinates(cell)
      case Err(e) => Err(e)
      case Ok((col, row)) =>
        AcceptedIsPositive(cell);
        Ok((Prepare(s.rows, col, row), col, row))
  }

  /** prepareCellStyle: an unstyled cell takes the style of the last column range over it. */
  function ColumnStyle(cols: Option<seq<Col>>, col: int, style: int): (style': int) {
    if cols.Some? && style == 0 then LastStyle(cols.value, col, style) else style
  }

  function LastStyle(cols: seq<Col>, col: int, style: int): (style': int) {
    if cols == [] then style
    else
      var c := cols[|cols| - 1];
      if c.Min <= col <= c.Max then c.Style else LastStyle(cols[..|cols| - 1], col, style)
  }

  function PutAt(rows: seq<Row>, col: int, row: int, data: CellData): (rows': seq<Row>)
    requires InGrid(rows, col, row)
  {
    var r := rows[row - 1];
    rows[row - 1 := r.(C := r.C[col - 1 := r.C[col - 1].(data := data)])]
  }

  function Stamp(d: CellData, style: int, kind: string, value: string, leadingSpace: bool): (d': CellData) {
    d.(S := style, T := kind, V := value, preserveSpace := d.preserveSpace || leadingSpace)
  }

  /** The common part of SetCellInt, SetCellBool, SetCellFloat, SetCellStr and SetCellDefault. */
  function SetCell(s: Sheet, axis: string, kind: string, value: string, leadingSpace: bool): (result: (Sheet, Outcome)) {
    match PrepareCell(s, axis)
    case Err(e) => (s, Failed(e))
    case Ok((rows, col, row)) =>
      var d := rows[row - 1].C[col - 1].data;
      (s.(rows := PutAt(rows, col, row, Stamp(d, ColumnStyle(s.cols, col, d.S), kind, value, leadingSpace))), Done)
  }

  const MAX_CELL_CHARS := 32767

  function Clipped(value: string): (v: string) {
    if |value| > MAX_CELL_CHARS then value[..MAX_CELL_CHARS] else value
  }

  function SetCellStr(s: Sheet, axis: string, value: string): (result: (Sheet, Outcome)) {
    var v := Clipped(value);
    SetCell(s, axis, "str", v, |v| > 0 && v[0] == ' ')
  }

  function SetCellBool(s: Sheet, axis: string, value: bool): (result: (Sheet, Outcome)) {
    SetCell(s, axis, "b", if value then "1" else "0", false)
  }

  function SetCellInt(s: Sheet, axis: string, value: int): (result: (Sheet, Outcome)) {
    SetCell(s, axis, "", ItoaInt(value), false)
  }

  function SetCellDefault(s: Sheet, axis: string, value: string): (result: (Sheet, Outcome)) {
    SetCell(s, axis, "", value, false)
  }

  /** SetCellFormula: a cell that has a formula record has it overwritten, and so has every cell that shares it. */
  function SetCellFormula(s: Sheet, axis: string, formula: string): (result: (Sheet, Outcome)) {
    match PrepareCell(s, axis)
    case Err(e) => (s, Failed(e))
    case Ok((rows, col, row)) =>
      var d := rows[row - 1].C[col - 1].data;
      if formula == "" then
        (s.(rows := PutAt(rows, col, row, d.(F := None))), Done)
      else if d.F.Some? && d.F.value < |s.formulas| then
        (s.(rows := rows, formulas := s.formulas[d.F.value := formula]), Done)
      else
        (s.(rows := PutAt(rows, col, row, d.(F := Some(|s.formulas|))), formulas := s.formulas + [formula]), Done)
  }

  /** GetCellStyle grows the grid like a writer. */
  function GetCellStyle(s: Sheet, axis: string): (result: (Sheet, Result<int>)) {
    match PrepareCell(s, axis)
    case Err(e) => (s, Err(e))
    case Ok((rows, col, row)) =>
      (s.(rows := rows), Ok(ColumnStyle(s.cols, col, rows[row - 1].C[col - 1].data.S)))
  }

  function StyleCell(c: Cell, style: int): (c': Cell) { c.(data := c.data.(S := style)) }

  function StyleRow(r: Row, c1: int, c2: int, style: int): (r': Row)
    ensures r'.R == r.R && r'.attrs == r.attrs && |r'.C| == |r.C|
    ensures forall j :: 0 <= j < |r.C| ==> r'.C[j] == if c1 - 1 <= j < c2 then StyleCell(r.C[j], style) else r.C[j]
  {
    r.(C := seq(|r.C|, j requires 0 <= j < |r.C| => if c1 - 1 <= j < c2 then StyleCell(r.C[j], style) else r.C[j]))
  }

  function StyleRows(rows: seq<Row>, c1: int, r1: int, c2: int, r2: int, style: int): (rows': seq<Row>)
    ensures |rows'| == |rows|
    ensures forall i :: 0 <= i < |rows| ==> rows'[i] == if r1 - 1 <= i < r2 then StyleRow(rows[i], c1, c2, style) else rows[i]
  {
    seq(|rows|, i requires 0 <= i < |rows| => if r1 - 1 <= i < r2 then StyleRow(rows[i], c1, c2, style) else rows[i])
  }

  function SetCellStyle(s: Sheet, hcell: string, vcell: string, style: int): (result: (Sheet, Outcome)) {
    var first, last := CellNameToCoordinates(hcell), CellNameToCoordinates(vcell);
    if first.Err? then (s, Failed(first.error))
    else if last.Err? then (s, Failed(last.error))
    else
      AcceptedIsPositive(hcell);
      AcceptedIsPositive(vcell);
      var ((hc, hr), (vc, vr)) := (first.value, last.value);
      var c1, r1, c2, r2 := Min(hc, vc), Min(hr, vr), Max(hc, vc), Max(hr, vr);
      var grown := Contiguous(Prepare(s.rows, c2, r2), r1, r2, c2);
      (s.(rows := StyleRows(grown, c1, r1, c2, r2, style)), Done)
  }

  function SetRowHeight(s: Sheet, row: int, height: real): (result: (Sheet, Outcome)) {
    if row < 1 then (s, Failed(InvalidRowNumber(row)))
    else
      var rows := Prepare(s.rows, 0, row);
      var r := rows[row - 1];
      (s.(rows := rows[row - 1 := r.(attrs := r.attrs.(Ht := height, CustomHeight := true))]), Done)
  }

  // ---------- readers

  /** The first cell of that name, by a scan; when looking for a formula, cells without one are passed over. */
  function ScanCells(C: seq<Cell>, axis: string, formula: bool): (hit: Option<CellData>) {
    if C == [] then None
    else if C[0].R == axis && (formula ==> C[0].data.F.Some?) then Some(C[0].data)
    else ScanCells(C[1..], axis, formula)
  }

  function ScanRows(rows: seq<Row>, row: int, axis: string, formula: bool): (found: Option<CellData>) {
    if rows == [] then None
    else
      var hit := if rows[0].R == row then ScanCells(rows[0].C, axis, formula) else None;
      if hit.Some? then hit else ScanRows(rows[1..], row, axis, formula)
  }

  function LastRowNumber(rows: seq<Row>): (n: int) {
    if rows == [] then 0 else rows[|rows| - 1].R
  }

  /** getCellStringFunc: rows are scanned by number and cells by name. */
  function Find(s: Sheet, axis: string, formula: bool): (found: Result<Option<CellData>>) {
    match Resolve(s.merges, axis)
    case Err(e) => Err(e)
    case Ok(cell) =>
      match CellNameToCoordinates(cell)
      case Err(e) => Err(e)
      case Ok((_, row)) =>
        if row > LastRowNumber(s.rows) then Ok(None) else Ok(ScanRows(s.rows, row, cell, formula))
  }

  /** The raw value behind GetCellValue. */
  function GetCellValue(s: Sheet, axis: string): (value: Result<string>) {
    match Find(s, axis, false)
    case Err(e) => Err(e)
    case Ok(None) => Ok("")
    case Ok(Some(d)) => Ok(d.V)
  }

  function FormulaText(s: Sheet, d: CellData): (text: string) {
    if d.F.Some? && d.F.value < |s.formulas| then s.formulas[d.F.value] else ""
  }

  function GetCellFormula(s: Sheet, axis: string): (text: Result<string>) {
    match Find(s, axis, true)
    case Err(e) => Err(e)
    case Ok(None) => Ok("")
    case Ok(Some(d)) => Ok(FormulaText(s, d))
  }

  function FirstLink(links: seq<Hyperlink>, ref: string): (link: Option<Hyperlink>) {
    if links == [] then None
    else if links[0].Ref == ref then Some(links[0])
    else FirstLink(links[1..], ref)
  }

  /** The link record behind GetCellHyperLink. */
  function GetCellHyperLink(s: Sheet, axis: string): (link: Result<Option<Hyperlink>>) {
    match SplitCellName(axis)
    case Err(e) => Err(e)
    case Ok(_) =>
      match Resolve(s.merges, axis)
      case Err(e) => Err(e)
      case Ok(cell) => Ok(if s.links.None? then None else FirstLink(s.links.value, cell))
  }

  const MAX_LINKS := 65529

  /** SetCellHyperLink; rid is the relationship id that an external link is given. */
  function SetCellHyperLink(s: Sheet, axis: string, link: string, linkType: string, rid: string): (result: (Sheet, Outcome)) {
    match SplitCellName(axis)
    case Err(e) => (s, Failed(e))
    case Ok(_) =>
      match Resolve(s.merges, axis)
      case Err(e) => (s, Failed(e))
      case Ok(cell) =>
        var links := if s.links.None? then [] else s.links.value;
        if |links| > MAX_LINKS then (s.(links := Some(links)), Failed(TooManyLinks))
        else if linkType == "External" then (s.(links := Some(links + [Hyperlink(cell, rid, "")])), Done)
        else if linkType == "Location" then (s.(links := Some(links + [Hyperlink(cell, "", link)])), Done)
        else (s.(links := Some(links)), Failed(InvalidLinkType(linkType)))
  }
}
