# A verified model of the spreadsheet library's core

The library keeps a worksheet as a list of rows, each a list of cells that carry their own names
("B7"). Writers index these lists directly, readers search them by name, and the two agree only
while the grid is *dense*: row i is numbered i, and its j-th cell is named for column j of row i.
Nothing in the code says so. This project models the worksheet and its structural edits as they run,
states what each edit means for the cells, merged areas, hyperlinks and the auto filter, and proves
it for every sheet and over whole runs. Beside the grid stand the cores it rests on or sits beside:
cell names, dates, object placement, colours and the workbook's registry of sheets.

## How it is built

| files | what they hold |
|---|---|
| Text, CellNames | letters, decimals, bijective base 26, cell names |
| SheetModel | the sheet as a value, density, and the view At(rows, col, row) of its cells |
| AdjustSpec, EditSpec, CellSpec | every operation as a function from sheet to sheet |
| Worksheet | the worksheet object; each method, with the library's loops, equals its function |
| Normalise, GridEdits, Areas, References, LinkRemoval, MergeRemoval | one part of an edit each |
| Reads, Writers, Refusals, Addresses, SheetEdits, Removals, ColumnLetters, Undo, Duplicate, Loading, Runs | what whole operations, pairs of them, and runs mean |
| Calendar, Dates | the calendar algorithm and serial numbers |
| Placement | where a drawing ends |
| Colours | HSL and RGB over the reals, theme tints |
| Registry, RegistryEffects, Workbook | the sheet registry as a value, what each operation does to each sheet, and the registry as an object |

Modelling decisions:

- A run-time panic is an outcome, `Panicked`, so that it can be ruled out or exhibited.
- Where the code deletes from a slice it ranges over, the backing array and the shortened length are
  both kept, so that iterations see what they see in Go.
- Cells hold pointers to formulas; a pointer is an index into a store of formulas, and two cells with
  one pointer share the formula.
- DuplicateRowTo reads the source row before it inserts, and the insertion renames cells of the
  shared slice; the copy is modelled with the names it has at that moment.
- Times are counts of nanoseconds on the day-number scale; Durations are 64-bit and every operation
  on them is checked for overflow. Floating point is real arithmetic.

## What the code does against expectation

Each item is proved, with the exact condition wherever one is stated.

- MergeCell (cell.go:396-402) is documented to remove areas the new one overlaps; the code leaves
  the sheet unchanged instead. It misses exactly those overlaps in which the first corners and the
  last corners both lie in opposite order on the two axes, as in a cross
  (`Areas.MissedOverlap`, `Areas.CrossIsAccepted`).
- Inserting a row past the last one and removing it again restores the sheet only when no area, link
  or filter reaches that line, because RemoveRow returns early (`Undo.InsertRemoveRow`).
- RemoveCol compares letters case-sensitively: it removes the column exactly if it is named by its
  canonical letters or no row reaches it (`ColumnLetters.RemoveColExact`); otherwise it still
  renames the cells to the right (`ColumnLetters.RemoveColOtherLetters`).
- An accepted address in other than canonical spelling, such as "A05", writes to a cell that it then
  does not read, unless a merged area holds it (`Addresses.ReadsAnchor`).
- DuplicateRowTo keeps the grid dense exactly for targets up to one past the last row
  (`Duplicate.DuplicateDense`), and a copy shares its formula with its source
  (`Duplicate.CopySharesFormula`).
- Removing a line removes exactly the links on it if and only if the condition of
  `LinkRemoval.RemovalExact` holds; otherwise a link survives, all are lost, or the loop panics
  (`LinkRemoval.PanicsExactly`).
- Removing a line keeps an area over the same cells if and only if the area does not start on that
  line, line 1 apart (`References.RemovalMovesArea`). When areas shrink to one cell the loop steps
  over others, moves the last one again for each, and may panic; it leaves exactly the areas of
  several cells, each moved once, if and only if the condition of `MergeRemoval.RemovalExact` holds.
  `MergeRemoval.PanicsExactly` says exactly when it panics; one shrinking area can be enough
  (`MergeRemoval.OneShrinksAndPanics`).
- An edit leaves the auto filter over exactly the cells it covered if and only if the condition of
  `References.FilterCovers` holds. For an ordered filter: by rows always, unless its header row goes
  while it has data rows; by columns if it does not start right of the edited column, and is not
  cleared by an insertion at its only column.
- Removing a filter's header row clears the filter and is to show the rows it hid, but by then the
  rows have new numbers: the first data row stays hidden and the row below the filter is shown.
  `Removals.ClearingExact` says exactly when the right rows are shown, and `Removals.StaysHidden`
  gives a sheet on which a row stays hidden.
- A link set where one is stored already is not read back: the earlier one stays in front
  (`SheetEdits.LinkReadsBack`).
- DeleteSheet under a spelling that trims to a sheet's name leaves a stale path; NewSheet under such
  a spelling duplicates the name of an only sheet; SetSheetName to a name in use breaks the registry
  (`Registry.DeleteSheetKeeps`, `Registry.NewSheetKeeps`, `Registry.SetSheetNameKeeps`).
- positionObjectPixels uses a zero-based index in the loop for the start column, so that it
  subtracts the width of the column before each one. `Placement.StartColumn` says exactly when the
  start is right all the same, `Placement.EndColumn` when the end is, and `Placement.WrongStart`
  gives a sheet for which the start is wrong. The absolute row position is off as well
  (`Placement.AbsoluteRow`).

## Model

| member | source | states |
|---|---|---|
| CellNames.ColumnNameToNumber | lib.go:118-136 | the loop from the right with growing powers of 26 equals the value of the letters, refusing anything but letters |
| CellNames.ColumnNumberToName | lib.go:145-155 | the loop equals the bijective base-26 name, refusing numbers below 1 |
| CellNames.ColumnsRoundTrip | lib.go:118-155 | both conversions are mutually inverse on positive numbers and non-empty letter words, up to case; exactly those are accepted |
| CellNames.ColumnOrder | lib.go:118-155 | numeric order is order by length, then alphabetical; equal values only for equal words |
| CellNames.SplitLetters | lib.go:73-84 | letters followed by a numeral split where the letters end |
| CellNames.SplitJoin | lib.go:73-108 | splitting undoes joining, up to case; joining accepts exactly letter words and positive rows |
| CellNames.CoordinatesRoundTrip | lib.go:165-197 | every position with both coordinates from 1 on survives printing and parsing |
| CellNames.OnlyPositionsNamed | lib.go:188-197 | exactly the positions with both coordinates from 1 on have a name, and it parses back |
| CellNames.NamesDistinct | lib.go:188-197 | two positions share a name only if they are equal |
| CellNames.Reprint | lib.go:73-197 | any accepted name reprints to a name with the same coordinates, and to itself exactly if it is canonical |
| CellNames.CanonicalSplits | lib.go:165-180 | a canonical name parses to the value of its letters and the value of its digits, and prints back |
| CellNames.CanonicalIsNamed | lib.go:188-197 | every printed name is canonical |
| CellNames.RenameRow | adjust.go:82-88 | joining a column's letters with a new row number gives the name of the new position |
| Normalise.CheckAscendingCells | rows.go:547-587 | a row of cells in ascending order becomes a full row holding the same things at the same columns, blanks between |
| Normalise.FullRow | rows.go:551-560 | pigeonhole: as many ascending cells as the last column means that none is missing, so skipping the row is right |
| Normalise.CheckAscending | excelize.go:139-163 | loading an ascending sparse sheet gives a dense one with the same cells, widths and row attributes |
| Normalise.DenseIsAscending | rows.go:547-587 | a dense grid is such a sheet and holds itself |
| Normalise.CheckDense | excelize.go:139-163 | normalising a dense grid changes nothing |
| Normalise.CheckIdempotent | excelize.go:139-163 | normalising twice is normalising once |
| GridEdits.InsertLine | adjust.go:73-88 | a new blank line at n, lines from n on moved down by one, all others untouched, ragged rows included |
| GridEdits.RemoveLine | rows.go:414-434 | line n is gone, lines below moved up by one, nothing else lost; the result is dense before any repair |
| GridEdits.InsertColumn | col.go:353-359 | on every row a blank at column n and cells from n on moved right; shorter rows untouched |
| GridEdits.FindColumn | col.go:379-388 | comparing letters finds exactly the cell of the column, in any dense row |
| GridEdits.RemoveColumn | col.go:370-391 | on every row column n is gone and cells to its right moved left |
| Areas.InAreaMeans | cell.go:601-616 | membership on strings is membership of the position in the rectangle |
| Areas.ResolveMeans | cell.go:583-597 | the parser's walk over the areas on strings is the walk on positions |
| Areas.ResolveName | cell.go:583-597 | a canonical address resolves to the canonical name of its anchor |
| Areas.ResolveFirst | cell.go:583-597 | in a well-merged sheet an address resolves to the top-left cell of the first area holding it, else to itself |
| Areas.ResolveIdempotent | cell.go:583-597 | resolving twice is resolving once |
| Areas.ClashMeans | cell.go:442-446 | the four string tests against a stored area hold exactly if a corner of one lies inside the other |
| Areas.ScanMeans | cell.go:440-450 | the scan reports a free place exactly if no corner of either area lies in the other, for every stored area |
| Areas.StoreArea | cell.go:440-450 | storing an area that is free of all others keeps the sheet well merged |
| Areas.MergeKeeps | cell.go:403-455 | merging stores the ordered rectangle if it has several cells and is free of all others, and otherwise changes nothing |
| Areas.MissedOverlap | cell.go:442-446 | exactly which overlapping areas pass the corner test |
| Areas.BothStored | cell.go:403-455 | any two areas with corners apart, overlapping or not, are stored one after the other |
| Areas.CrossIsAccepted | cell.go:403-455 | merging B1:B3 and then A2:C2 stores both, which cross |
| References.ShiftedArea | adjust.go:186-245 | after an insertion an area holds exactly the same cells under their new addresses, and removal undoes it |
| References.ShiftKeepsApart | adjust.go:186-245 | an insertion keeps corners apart, and apart only if they were |
| References.RemovalMovesArea | adjust.go:204-221 | a removal keeps the area on its surviving cells exactly if it does not start on the line, line 1 apart |
| References.MergesMove | adjust.go:186-245 | while none collapses, each stored area is moved once, in place and in order |
| References.InsertionKeepsMerges | adjust.go:186-245 | an insertion keeps references canonical and the sheet well merged |
| References.RemovalUndoesMerges | adjust.go:186-245 | removing the inserted line restores every reference to the letter |
| References.ResolveShifts | adjust.go:186-245 | resolving a shifted address is shifting the resolved address |
| References.ShiftLinkRef | adjust.go:114-131 | a link's address moves with its cell, never onto the inserted line, and back |
| References.NoneOnLine | adjust.go:99-113 | with no link on the line the removal loop changes nothing |
| References.LinksShift | adjust.go:92-133 | an insertion moves every link, a removal of the new line moves them back |
| References.FirstLinkShifts | adjust.go:92-133 | the first link found at a shifted address is the one found before |
| References.FilterMoves | adjust.go:137-182 | when the filter is cleared, which row numbers are shown then, and the reference it gets otherwise |
| References.FilterMeans | adjust.go:163-181 | the new reference is canonical and stands for the moved area exactly while both corners stay on the sheet |
| References.FilterCovers | adjust.go:137-182 | for any filter with both corners on the sheet: it covers after the edit exactly the cells it covered if and only if a condition on its corners holds |
| LinkRemoval.RunLoop | adjust.go:99-113 | the deleting loop in closed form from any iteration, stale slots of the array included |
| LinkRemoval.RunAll | adjust.go:99-113 | the whole loop in closed form: links behind a removed one are stepped over |
| LinkRemoval.KeptIsOffLine | adjust.go:99-113 | the survivors are the links off the line exactly if no two neighbours are on it |
| LinkRemoval.RemovalExact | adjust.go:99-113 | the loop ends normally with exactly the links off the line if and only if a condition on the list holds |
| LinkRemoval.NeighbourSurvives | adjust.go:99-113 | of the first two neighbours on the line, in any list that ends off it, the second survives |
| LinkRemoval.PanicsExactly | adjust.go:99-113 | exactly when the loop panics |
| MergeRemoval.StepMeans | adjust.go:191-243 | one iteration on a canonical reference: the moved rectangle's reference, and deletion exactly if that is one cell |
| MergeRemoval.RunStale | adjust.go:191-243 | the stale slots in closed form: the last area moved once for each, and a panic, or the loss of all areas, if it shrinks there |
| MergeRemoval.RunLoop | adjust.go:191-243 | the deleting loop in closed form from any iteration |
| MergeRemoval.RunAll | adjust.go:186-245 | the whole loop in closed form: the area behind each deleted one is stepped over |
| MergeRemoval.ShownExactly | adjust.go:191-243 | the areas shown are the surviving ones exactly if no two neighbours shrink, what is stepped over does not move, and the last one ends where one move puts it |
| MergeRemoval.RemovalExact | adjust.go:186-245 | the loop ends normally with exactly the areas of several cells, each moved once, if and only if a condition on the areas holds |
| MergeRemoval.InCoordinates | adjust.go:204-223 | the parts of that condition in terms of an area's first and last line |
| MergeRemoval.FewShrink | adjust.go:224-232 | when all areas shrink: right up to three, a panic from four on |
| MergeRemoval.PanicsExactly | adjust.go:186-245 | exactly when the loop panics: a stale slot shrinks the last area, with more than one area left or another stale slot to come |
| MergeRemoval.PairsPanic | adjust.go:224-232 | any number of areas that all shrink can be stored together, and from four on removing the line panics |
| MergeRemoval.SecondMovePanics | adjust.go:224-232 | one shrinking area of three is enough for a panic |
| MergeRemoval.OneShrinksAndPanics | adjust.go:224-232 | A1:A2, C1:D5 and B1:B3, which can be stored together, panic when line 2 is removed |
| Reads.FindIsAt | cell.go:507-551 | the scan by row number and name finds exactly what stands at the anchor's indexes |
| Reads.ReadsAreAt | cell.go:37-45 | raw value and formula read at any canonical address are those at the anchor |
| Reads.PrepareGrows | sheet.go:1237-1257 | growing keeps density and content; exact new height and widths |
| Reads.PrepareCellAt | cell.go:489-503 | preparing a cell gives the indexes of the anchor, in range, and content unchanged |
| Reads.SetCellWrites | cell.go:157-260 | a write changes the data of the anchor alone, with the column's style where the cell has none |
| Reads.WriteThenRead | cell.go:157-260 | after a write every address with the same anchor reads the value, every other as before; formulas read as before |
| Reads.SetFormulaWrites | cell.go:278-299 | a formula goes through the cell's pointer, or through a new one |
| Reads.FormulaReaches | cell.go:278-299 | afterwards exactly the addresses that share anchor or pointer read the new formula |
| Writers.FormulaCleared | cell.go:278-299 | the empty formula clears the anchor of its address alone: cells that shared the record keep it, values and store stay |
| Writers.LastStyleIs | cell.go:570-579 | the loop over the column ranges keeps the style of the last one over the column |
| Writers.StyleShown | cell.go:570-579 | the style shown is the stored one, and for an unstyled cell that of the last column range over it, or none |
| Writers.StyleRead | styles.go:2268-2278 | the style read at an address is the one its anchor shows; the grid may grow and nothing else changes |
| Writers.StyleThenRead | styles.go:2268-2384 | after styling a rectangle, addresses anchored in it read the style and all others what they read before |
| Writers.SetCellFields | cell.go:157-260 | a write field by field: text, type, style shown and space flag of the anchor; its formula and every other cell stay |
| Writers.TypedFields | cell.go:157-260 | which type, text and space flag each of the four writers leaves; strings end after 32767 characters |
| Writers.HeightSet | rows.go:229-245 | one row gets the height and the flag; every other row and every cell is as before |
| Refusals.RowEdits | rows.go:414-521 | row numbers below 1 are refused with their error; beyond the last row nothing is removed or copied |
| Refusals.ColumnEdits | col.go:353-391 | anything but letters is refused with its error and changes nothing |
| Refusals.InsertionsSucceed | rows.go:442-447 | on a well-formed sheet insertions are refused for these reasons only |
| Refusals.Corners | cell.go:403-412 | two corners are parsed in order, and the first that fails gives the error |
| Refusals.CornersSucceed | cell.go:403-455 | with two accepted corners merging and styling succeed |
| Refusals.CellCalls | cell.go:489-551 | reads and writes of a cell are refused exactly if the address is not accepted, and then change nothing |
| Refusals.LinkReads | cell.go:309-334 | exactly when looking up a link is refused |
| Refusals.LinkWrites | cell.go:351-394 | how many links and which types are accepted, with the errors |
| Addresses.UpperParses | lib.go:73-84 | an address is accepted exactly if its upper-case spelling is, at the same position |
| Addresses.ResolveAccepted | cell.go:583-597 | what any accepted address resolves to |
| Addresses.PrepareAccepted | cell.go:489-503 | every write reaches the same cell under any accepted spelling |
| Addresses.FindAccepted | cell.go:507-551 | a scan under any accepted spelling finds what the canonical one finds, or nothing |
| Addresses.ReadsAnchor | cell.go:507-551 | the value read is the anchor's if and only if the address is canonical up to case, or in a merged area, or the value is empty |
| Addresses.WriteThenReadAccepted | cell.go:157-260 | reading back a write, under any two accepted spellings |
| Addresses.SetCellReadsBack | cell.go:157-260 | a write reads back at every named address of its anchor and nowhere else; a refused address changes nothing |
| Addresses.DecimalReads | cell.go:157-169 | the decimal written for a number reads as the number |
| Reads.ContiguousGrows | sheet.go:1259-1264 | widening rows keeps density and content; which rows, to which width |
| Reads.StyleRowsExactly | styles.go:2376-2382 | the double loop styles the rectangle exactly |
| Reads.SetStyleExactly | styles.go:2345-2384 | for any two corners the style changes on exactly the rectangle between them and nothing else does |
| SheetEdits.InsertRowEffect | adjust.go:33-54 | a row insertion as a whole: grid, links, areas and filter, and well-formedness kept |
| SheetEdits.InsertColEffect | adjust.go:33-54 | a column insertion as a whole |
| SheetEdits.FilterInserted | adjust.go:137-182 | what an insertion does to the filter and to hidden rows |
| SheetEdits.FilterRestored | adjust.go:137-182 | a removal restores the filter unless the insertion had cleared it |
| SheetEdits.LinkAtAnchor | cell.go:309-334 | a link is looked up under the name of the anchor |
| SheetEdits.LinkReadsBack | cell.go:309-394 | a link that was set is read at an address if and only if the address has its anchor and no other link was there before; all else reads as before |
| SheetEdits.AnchorShifts | cell.go:583-597 | anchors move with an insertion |
| SheetEdits.InsertRowReads | adjust.go:33-245 | after a row insertion every shifted address reads the value, formula and link it read before, through merged areas |
| SheetEdits.InsertColReads | adjust.go:33-245 | the same for a column insertion |
| Removals.LinksRemoved | adjust.go:92-133 | the links left are those off the line, moved with their cells |
| Removals.FirstLinkLeft | adjust.go:92-133 | the first link found at an address is the one found where it came from |
| Removals.MergesRemoved | adjust.go:186-245 | the areas left are those of several cells, each moved once |
| Removals.ResolvePulls | adjust.go:186-245 | resolution commutes with a removal where no area starts on the line, shrinking areas included |
| Removals.RemoveRowEffect | rows.go:414-434 | a row removal as a whole: grid, links, areas and filter |
| Removals.RemoveColEffect | col.go:370-391 | a column removal by canonical letters as a whole |
| Removals.RemoveRowReads | rows.go:414-434 | after a row removal every surviving address reads the value, formula and link it read before, through merged areas |
| Removals.RemoveColReads | col.go:370-391 | the same for a column removal |
| Removals.ClearingExact | adjust.go:33-163 | when the header row of a filter goes, exactly the rows it covered are shown if and only if neither the first of them nor the row below the filter was hidden, or there were none |
| Removals.FirstStays | adjust.go:33-163 | the first data row of such a filter is left as hidden as it was |
| Removals.StaysHidden | adjust.go:33-163 | a filter over A1:A3 that hides row 2, and row 1 removed: no filter, and the row still hidden |
| Removals.MergesEnd | adjust.go:186-245 | whatever shrinks, the loop panics or leaves canonical areas of several cells |
| Removals.RemovedAnyway | adjust.go:33-54 | a removal leaves the rows dense even when it panics, with a filter or without |
| Undo.RemoveInsertedRow | rows.go:414-447 | inserting at an existing row and removing it gives the very same sheet |
| Undo.InsertRemoveRow | rows.go:414-447 | inserting and removing any row restores the sheet if and only if the row exists or nothing refers to it or below |
| Undo.InsertRemoveCol | col.go:353-391 | inserting and removing a column restores the sheet if and only if the filter is not over that column alone |
| ColumnLetters.RemoveColOtherLetters | col.go:370-391 | with other than canonical letters: dense and unchanged if and only if every row ends before the column |
| ColumnLetters.RemoveColExact | col.go:370-391 | the column is removed if and only if it is named by its canonical letters or no row reaches it |
| Duplicate.RenumberTwice | adjust.go:82-88 | renaming a row a second time forgets the first |
| Duplicate.CopyOf | rows.go:499-507 | the copy is dense on its line with the source's data, whether or not the insertion had renamed its cells |
| Duplicate.DuplicateEffect | rows.go:470-521 | old rows before the target, a renamed copy at it, old rows moved down after it; beyond one past the end, the row appended as it stands |
| Duplicate.DuplicateDense | rows.go:470-521 | the result is dense if and only if the target is at most one past the last row |
| Duplicate.CopyIsIndependent | rows.go:499-520 | a value written into the copy is read there and does not show in the source |
| Duplicate.CopySharesFormula | rows.go:499-520 | source and copy share a formula record exactly if the source had one; a formula set in the copy shows in the source exactly if their anchors share a record |
| Loading.TrimCell | sheet.go:120-130 | the compacting loop keeps the cells that hold something, in order |
| Loading.TrimThenCheck | sheet.go:120-130 | a trimmed row refills to the row cut after its last kept cell, and exactly when that is the same row |
| Loading.SaveThenLoad | sheet.go:103-117 | saving and loading a dense sheet gives a dense sheet of the same height with the same content, trailing blanks cut |
| Loading.SavedContent | sheet.go:103-130 | exactly the cells with a style, a text, a formula or a type survive saving and loading; all others come back blank |
| Runs.PutValueKeeps | cell.go:157-260 | a value write with any strings keeps the invariant and never panics |
| Runs.PutFormulaKeeps | cell.go:278-299 | so does a formula write |
| Runs.PutStyleKeeps | styles.go:2345-2384 | so does styling a rectangle |
| Runs.ReadStyleKeeps | styles.go:2268-2278 | so does reading a style, which may grow the grid |
| Runs.PutHeightKeeps | rows.go:229-245 | so does a row height |
| Runs.PutLinkKeeps | cell.go:351-394 | so does a link at any address; links stay canonical if the address is, up to case |
| Runs.MergeStaysCanonical | cell.go:403-455 | merging with any two strings keeps references canonical and well merged |
| Runs.AddRowKeeps | rows.go:442-447 | inserting at any row number keeps the invariant and well-merged areas |
| Runs.AddColKeeps | col.go:353-359 | inserting at any column string does |
| Runs.CopyRowKeeps | rows.go:470-521 | duplicating a row does, up to one past the end |
| Runs.StepStaysDense | adjust.go:33-54 | every careful step, any removal included, leaves the grid dense; only removals can panic |
| Runs.RunStaysDense | adjust.go:33-54 | every state of every careful run is dense, up to and including one that a panic leaves |
| Runs.StepKeeps | adjust.go:33-54 | every legal step keeps density, canonical areas and links and valid formula pointers, and does not panic |
| Runs.RunKeeps | adjust.go:33-54 | so does every legal run |
| Runs.EmptyIsGood | excelize.go:115-133 | the empty sheet satisfies the invariant |
| Runs.StepKeepsAreas | cell.go:403-455 | every legal step but a removal keeps the areas well merged |
| Runs.RunKeepsAreas | cell.go:403-455 | after any legal run without removals, resolving is idempotent and finds the first area holding the address |
| Worksheets.Worksheet.constructor | excelize.go:115-133 | a new worksheet object is the sheet without rows |
| Worksheets.Worksheet.AjustSingleRowDimensions | adjust.go:82-88 | the loop over the cells equals renumbering the row |
| Worksheets.Worksheet.AdjustRowDimensions | adjust.go:73-79 | the loop equals shifting the rows |
| Worksheets.Worksheet.AdjustColDimensions | adjust.go:58-69 | the two loops equal shifting the cells of each row |
| Worksheets.Worksheet.AdjustHyperlinks | adjust.go:92-133 | both loops, with deletion during iteration, equal their specification |
| Worksheets.Worksheet.AdjustMergeCells | adjust.go:186-245 | the loop, with deletion during iteration, equals its specification |
| Worksheets.Worksheet.AdjustAutoFilter | adjust.go:137-182 | equals its specification, hidden rows included |
| Worksheets.Worksheet.AdjustHelper | adjust.go:33-54 | the steps in their order, stopping at the first error |
| Worksheets.Worksheet.CheckSheet | excelize.go:139-163 | the map of existing rows and the rebuilding loop equal the specification |
| Worksheets.Worksheet.ExistingRows | excelize.go:141-151 | the map holds for each number the last row with it |
| Worksheets.Worksheet.CheckRow | rows.go:547-587 | the loop over the rows equals the specification, errors included |
| Worksheets.Worksheet.CheckOneRow | rows.go:548-586 | rebuilding one row equals the specification |
| Worksheets.Worksheet.InsertRow | rows.go:442-447 | new state and outcome |
| Worksheets.Worksheet.RemoveRow | rows.go:414-434 | new state and outcome, the early return included |
| Worksheets.Worksheet.DuplicateRow | rows.go:457-459 | the line below is a copy of the row and the rest moves down |
| Worksheets.Worksheet.FindRow | rows.go:491-497 | the first row with the number, or -1 |
| Worksheets.Worksheet.DuplicateRowTo | rows.go:470-521 | new state and outcome |
| Worksheets.Worksheet.InsertCol | col.go:353-359 | new state and outcome |
| Worksheets.Worksheet.RemoveCol | col.go:370-391 | new state and outcome |
| Worksheets.Worksheet.RemoveColFromRow | col.go:379-388 | drops the first cell with the letters |
| Worksheets.Worksheet.FillColumns | sheet.go:1249-1257 | appends named cells up to the column |
| Worksheets.Worksheet.PrepareSheetXML | sheet.go:1237-1247 | grows rows, then the one row's cells |
| Worksheets.Worksheet.MakeContiguousColumns | sheet.go:1259-1264 | grows the cells of a range of rows |
| Worksheets.Worksheet.MergeCellsParser | cell.go:583-597 | the loop updating the address equals resolution |
| Worksheets.Worksheet.MergeCell | cell.go:403-455 | new state and outcome |
| Worksheets.Worksheet.PrepareCell | cell.go:489-503 | grown rows and the indexes of the cell, or an error and no change |
| Worksheets.Worksheet.PrepareCellStyle | cell.go:570-579 | the style of the last column range that applies |
| Worksheets.Worksheet.SetCell | cell.go:157-260 | new state and outcome of a raw write |
| Worksheets.Worksheet.SetCellStr | cell.go:219-241 | the clipped string reads back at its anchor and nothing else changes, or the address is refused |
| Worksheets.Worksheet.SetCellBool | cell.go:174-190 | "1" or "0" reads back, likewise |
| Worksheets.Worksheet.SetCellInt | cell.go:157-169 | the decimal reads back, likewise |
| Worksheets.Worksheet.SetCellDefault | cell.go:247-260 | the string reads back, likewise |
| Worksheets.Worksheet.SetCellFormula | cell.go:278-299 | new cells, new formula store and outcome |
| Worksheets.Worksheet.SetRowHeight | rows.go:229-245 | new state and outcome |
| Worksheets.Worksheet.GetCellStyle | styles.go:2268-2278 | the style read and the grown grid |
| Worksheets.Worksheet.SetCellStyle | styles.go:2345-2384 | new state and outcome of the double loop |
| Worksheets.Worksheet.StyleOneRow | styles.go:2377-2381 | the inner loop |
| Worksheets.Worksheet.GetCellStringFunc | cell.go:507-551 | the two scanning loops equal the search |
| Worksheets.Worksheet.ScanRow | cell.go:536-548 | the inner loop |
| Worksheets.Worksheet.GetCellValue | cell.go:37-45 | the raw value found |
| Worksheets.Worksheet.GetCellFormula | cell.go:264-274 | the formula found |
| Worksheets.Worksheet.GetCellHyperLink | cell.go:309-334 | the first link at the resolved address |
| Worksheets.Worksheet.SetCellHyperLink | cell.go:351-394 | the link appended, or the error |
| Calendar.CenturyOf | date.go:123-135 | the first quotient names exactly the century a day lies in |
| Calendar.YearOf | date.go:123-135 | the second quotient names exactly the year of the century |
| Calendar.MonthOf | date.go:123-135 | the third quotient names exactly the month of the year |
| Calendar.DecodeParts | date.go:123-135 | the algorithm recovers century, year, month and day from the number they make |
| Calendar.EncodeParts | date.go:123-135 | every day number from -68569 on is made by such parts |
| Calendar.FliegelIsValid | date.go:123-135 | the result is a valid Gregorian date, and the day-number formula gives the number back |
| Calendar.FliegelInverts | date.go:123-135 | the algorithm inverts the day-number formula on every valid date |
| Calendar.NextDayNumber | date.go:123-135 | the formula numbers consecutive calendar days consecutively, by the 4/100/400 rule |
| Calendar.FliegelSteps | date.go:123-135 | the next number gives the next calendar day |
| Dates.TimeToExcelTime | date.go:29-65 | the chunked loop over a saturating difference ends and equals unbounded arithmetic |
| Dates.ExcelTimeIncreases | date.go:29-65 | serials grow strictly from 1899-12-31 on, and none lies in [60,61) |
| Dates.FirstSerials | date.go:29-65 | the serials of the first days, on both sides of the day that never was; 0 before the first |
| Dates.TimeFromExcelTime | date.go:139-174 | the chunked loop equals its specification, and no Duration product or conversion overflows |
| Dates.FractionRounds | date.go:85-101 | within half a microsecond of the fraction, minutes and seconds below 60 |
| Dates.FractionFits | date.go:169-172 | the fractional part stays below one day |
| Dates.JulianBranch | date.go:68-114 | through noon-shifted Julian dates: base plus the serial in days, exact for whole serials |
| Dates.FromExcelIsBasePlusDays | date.go:139-174 | both branches, both date systems: base plus the serial in days within 500 ns, exact for whole serials |
| Dates.BranchPrecision | date.go:139-174 | serials below 62 are rounded to the nearest microsecond, all others cut to the nanosecond |
| Dates.RoundTrip | date.go:29-174 | from time to serial and back: the time from 1900-03-01 on, one day less before, exact for midnights |
| Dates.LateTimesExact | date.go:29-174 | from 1900-03-02 on the round trip is exact for every time |
| Placement.SizesPositive | col.go:305-320 | with no negative width or height stored, every column and row takes at least one pixel |
| Placement.HeightInPixels | rows.go:592-599 | the least whole number of pixels that is at least four thirds of the height |
| Placement.HeightOf | rows.go:249-258 | the height of the first row with the number that has one, and 20 pixels if none has |
| Placement.WidthInPixels | col.go:397-410 | the least whole number of pixels from 12 a unit below 1, and 7 a unit and 5 from 1 on |
| Placement.WidthOf | col.go:305-320 | the width of the last range over the column, and 64 pixels without one |
| Placement.Walk | col.go:249-301 | each subtracting loop ends at the line that the distance reaches, with what is left of it |
| Placement.SumSizes | col.go:249-301 | the loop for the absolute position adds the sizes up to the line |
| Placement.PositionObjectPixels | col.go:249-301 | the loops together give a span as defined |
| Placement.ReachesOnce | col.go:249-301 | a distance reaches one line only |
| Placement.SpanUnique | col.go:249-301 | hence there is one span only |
| Placement.SpanConserves | col.go:249-301 | lengths are conserved: offset plus size equals the sizes stepped over plus the rest, and the rest fits |
| Placement.StartColumn | col.go:266-270 | the start column is right if and only if the rest at the true start, corrected by the difference of two widths, fits the column to the left; what it carries on is off by that difference |
| Placement.EndColumn | col.go:278-289 | the end is right if and only if the offset falls, by the widths subtracted, into a column as wide as the given one; otherwise it is that of an object moved by the difference |
| Placement.WrongStart | col.go:266-270 | a sheet with stored widths on which the start column is wrong |
| Placement.AbsoluteRow | col.go:259-264 | the absolute row position is right if and only if the given row is as high as the first |
| Colours.ChannelBetween | hsl.go:122-139 | a channel lies between the lower and the upper value |
| Colours.ExtremesReached | hsl.go:99-119 | some channel takes the upper and some the lower value, for every hue |
| Colours.FromHSLInRange | hsl.go:99-119 | channels stay in [0,1], and their extremes average to the lightness |
| Colours.ByteFits | hsl.go:99-119 | so the conversion to a byte never wraps |
| Colours.ByteIsNearest | hsl.go:99-119 | the conversion rounds to the nearest byte, halves up |
| Colours.UpperRestored | hsl.go:64-119 | the upper value computed from saturation and lightness is the largest channel |
| Colours.RGBRoundTrip | hsl.go:64-139 | HSL inverts RGB exactly for every colour over the reals |
| Colours.BytesRoundTrip | hsl.go:64-139 | and therefore for every triple of bytes |
| Colours.SaturationRestored | hsl.go:64-119 | saturation is recovered from the two values |
| Colours.SectorRestored | hsl.go:64-139 | the hue is recovered around the whole circle |
| Colours.HSLRoundTrip | hsl.go:64-139 | RGB inverts HSL for every hue below 1, positive saturation and lightness strictly between 0 and 1 |
| Colours.Greys | hsl.go:64-96 | a grey has no hue and no saturation |
| Colours.TintInRange | styles.go:2785-2800 | a tint from -1 to 1 keeps lightness in [0,1] and moves it the right way |
| Colours.ThemeColorTints | styles.go:2785-2800 | a negative tint scales the lightness by 1 + tint, any other the distance from white by 1 - tint; hue and saturation stay; -1 gives black, 1 white, 0 the colour itself |
| Registry.TrimIdempotent | sheet.go:972-989 | trimming gives an allowed name, is idempotent, and is the identity exactly on allowed names |
| Registry.TrimKeepsFirst | sheet.go:972-989 | trimming keeps the first 31 allowed characters, in order, and nothing else |
| Registry.ForbiddenIs | sheet.go:972-989 | the test by code point and the one against a string forbid the same characters |
| Registry.TargetNumberOf | sheet.go:310-343 | the number parsed from a sheet's target is the sheet's ID |
| Registry.RelNumberOf | sheet.go:186-209 | the number parsed from a relationship ID is the number it was made from |
| Registry.NewRelIsNew | sheet.go:186-209 | the new relationship ID is not in use |
| Registry.NameOfIndex | sheet.go:310-343 | a sheet exists exactly if its index is not 0, and the name of the index of a name is the name |
| Registry.AddSheetKeeps | sheet.go:33-59 | appending a sheet keeps the registry consistent if and only if its trimmed name is new |
| Registry.DropOne | sheet.go:443-450 | deleting while iterating removes exactly the one override and does not panic |
| Registry.DeleteOne | sheet.go:407-426 | the deleting loop removes exactly the one sheet with its relationship and override |
| Registry.WithoutKeeps | sheet.go:407-450 | what is left is consistent if and only if the name was given in trimmed spelling |
| Registry.DeleteSheetKeeps | sheet.go:407-450 | exactly when DeleteSheet keeps the registry consistent; it never panics and never deletes the last sheet |
| Registry.NewSheetKeeps | sheet.go:33-59 | exactly when NewSheet does, its result, and no change for an existing name |
| Registry.ReplacesSheet | sheet.go:33-59 | under another spelling of a name in use the old sheet is replaced |
| Registry.SetSheetNameKeeps | sheet.go:294-305 | a rename keeps the registry consistent if and only if the old name is unknown or the new one is |
| Registry.StepKeeps | sheet.go:33-450 | each step keeps consistency if and only if it is legal, and never panics |
| Registry.RunKeeps | sheet.go:33-450 | every legal run keeps names, IDs, relationships, overrides, paths and the count consistent |
| Registry.NewFileIsGood | file.go:25-56 | the workbook of NewFile is consistent |
| RegistryEffects.IndexOfSheet | sheet.go:329-343 | a sheet's index is its number and its path is made of it |
| RegistryEffects.PathsSpelled | sheet.go:134-209 | a sheet's file and part are named after its number |
| RegistryEffects.NameAt | sheet.go:310-324 | the name at an index is that of the sheet with the number, and empty if there is none |
| RegistryEffects.FirstSheet | file.go:25-56 | a new workbook has the one sheet Sheet1 at index 1 |
| RegistryEffects.RenameMoves | sheet.go:294-305 | a rename to a name not in use gives it the old one's index and path; the old name is gone and every other sheet is as before |
| RegistryEffects.RenameUnknown | sheet.go:294-305 | renaming an unknown sheet changes nothing |
| RegistryEffects.DeleteTakesOne | sheet.go:407-450 | the sheet is gone from the index, there is one less, and every other sheet has the index and path it had |
| RegistryEffects.NewSheetAdds | sheet.go:33-59 | the result is the new sheet's index, one more than the largest left, its path made of it; every other sheet is as before |
| Workbooks.Workbook.constructor | file.go:25-56 | a new workbook is the one of the templates |
| Workbooks.Workbook.GetSheetIndex | sheet.go:329-343 | the nested loops equal the look-up |
| Workbooks.Workbook.GetSheetName | sheet.go:310-324 | the nested loops equal the look-up |
| Workbooks.Workbook.AddXlsxWorkbookRels | sheet.go:186-209 | one more than the largest number in use, and the relationship appended |
| Workbooks.Workbook.DeleteSheetFromWorkbookRels | sheet.go:430-439 | the first relationship with the ID is gone and its target returned |
| Workbooks.Workbook.DeleteSheetFromContentTypes | sheet.go:443-450 | equals its specification, panics included |
| Workbooks.Workbook.DeleteSheet | sheet.go:407-426 | new state, panics included |
| Workbooks.Workbook.LargestSheetID | sheet.go:40-45 | the largest ID in use |
| Workbooks.Workbook.NewSheet | sheet.go:33-59 | new state and result |
| Workbooks.Workbook.SetSheetName | sheet.go:294-305 | new state |
| Workbooks.Workbook.TrimName | sheet.go:972-989 | the loop with its early end equals the specification |

## Left out

- Runs.RunKeeps: the runs have no auto filter, because nothing modelled here sets one, and column removals can push its corner off the sheet, after which edits fail; removals in runs meet the exact conditions under which the loops for links and areas are right.
- Runs.RunStaysDense: columns are removed by canonical letters and rows duplicated to at most one past the last, because the code breaks density otherwise.
- Runs.PutLinkKeeps: links stay canonical only for canonical addresses, because the code stores the address as given, in upper case.
- Runs.EmptyIsGood: loaded sheets enter through Loading and Normalise, not through the constructor.
- Runs.RunKeepsAreas: full disjointness of merged areas is not claimed, because the code accepts crosses; removals are excluded because they can bring corners together.
- SheetEdits.InsertColEffect: the widths and styles of column ranges are not adjusted by the code, so that a style default does not follow its column.
- Removals.RemoveRowReads: an area that starts on the removed line is excluded, because the library then reads it through a cell of the line before.
- Removals.RemoveColReads: likewise for columns.
- Duplicate.CopyIsIndependent: merged areas over both cells are excluded, because such cells are one cell to the library.
- Colours.HSLRoundTrip: hue 1, saturation 0 and lightness 0 or 1 have no unique HSL form.
- CellNames.ColumnsRoundTrip: integers are unbounded, so that overflow on very long column names is not modelled, nor Atoi's range error.
- Worksheets.Worksheet.SetCellStr: the limit counts characters, not bytes; ASCII letters only are folded to upper case.
- Addresses.SetCellReadsBack: letters outside ASCII that Go folds into A to Z are refused here and accepted by the library.
- Worksheets.Worksheet.SetCellHyperLink: the relationship of an external link is a parameter, since relationship files are not modelled.
- Worksheets.Worksheet.constructor: reading a sheet from XML is not part of this model.
- Worksheets.Worksheet.AdjustHyperlinks: the relationship of a removed link is not deleted, since relationship files are not modelled.
- Worksheets.Worksheet.GetCellHyperLink: the link record, without looking its target up in the relationship file.
- Worksheets.Worksheet.GetCellFormula: formulas shared by a shared-formula index are not resolved.
- Worksheets.Worksheet.GetCellValue: raw values only, without shared strings, inline strings and number formats.
- Worksheets.Worksheet.SetCellFormula: shared and array formulas and the calculation chain are not modelled.
- Worksheets.Worksheet.DuplicateRowTo: rows and cells are sequences held in a field and reassigned; the one place where two rows share a cell slice is modelled by value.
- Dates.TimeFromExcelTime: real arithmetic, without IEEE rounding; serials too large for a 64-bit integer are not modelled.
- Colours.ThemeColorTints: hexadecimal parsing and printing; the lightness is exact before the final rounding to bytes, which ByteIsNearest describes.
- Workbooks.Workbook.DeleteSheet: the calculation chain with its content-type override (calcchain.go:36-53), cached files and the active sheet are not modelled.
- Workbooks.Workbook.NewSheet: the application properties part and the new worksheet object are not modelled.
- Loading.SaveThenLoad: saving yields a separate value, although the library also leaves the sheet in memory trimmed.
- Opening files, ZIP and XML, the look-up of a worksheet by name, templates and namespaces.
- SetCellFloat, durations and times as cell values: formatting of numbers.
- Sheet views, the active sheet, visibility, copying of sheets and worksheet relationship files.
- Charts, pictures, comments, tables, styles tables, conditional formats and data validation: record building with little logic.
