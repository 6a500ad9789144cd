/**
 col.go, positionObjectPixels: from the pixel offset and size of a graphical object to the cells it
 spans. Offsets and sizes are conserved, and the cells found are the only ones that conserve them.
 */
module Placement {
  import opened Wrappers
  import opened SheetModel

  // ---------- cell sizes in pixels

  function Ceil(x: real): (n: int) { -((-x).Floor) }

  function ColWidthToPixels(width: real): (pixels: real) {
    if width == 0.0 then 0.0
    else if width < 1.0 then Ceil(width * 12.0 + 0.5) as real
    else Ceil(width * 7.0 + 0.5 + 5.0) as real
  }

  function RowHeightToPixels(height: real): (pixels: real) {
    if height == 0.0 then 0.0 else Ceil(4.0 / 3.0 * height) as real
  }

  const DEFAULT_COL_WIDTH := 64
  const DEFAULT_ROW_HEIGHT := 20

  /** The width of the last range over the column. */
  function LastWidth(cols: seq<Col>, col: int): (width: real) {
    if cols == [] then 0.0
    else
      var c := cols[|cols| - 1];
      if c.Min <= col <= c.Max then c.Width else LastWidth(cols[..|cols| - 1], col)
  }

  /** getColWidth, of a one-based column. */
  function ColWidth(cols: Option<seq<Col>>, col: int): (pixels: int) {
    var width := if cols.Some? then LastWidth(cols.value, col) else 0.0;
    if width != 0.0 then ColWidthToPixels(width).Floor else DEFAULT_COL_WIDTH
  }

  /** getRowHeight, of a zero-based row. */
  function RowHeight(rows: seq<Row>, row: int): (pixels: int) {
    if rows == [] then DEFAULT_ROW_HEIGHT
    else if rows[0].R == row + 1 && rows[0].attrs.Ht != 0.0 then RowHeightToPixels(rows[0].attrs.Ht).Floor
    else RowHeight(rows[1..], row)
  }

  lemma CeilIs(x: real)
    ensures x <= Ceil(x) as real < x + 1.0
  {
  }

  /** A row's height in pixels is the least integer p with 3p >= 4h. */
  lemma HeightInPixels(height: real)
    requires height != 0.0
    ensures var p := RowHeightToPixels(height).Floor; 3.0 * p as real >= 4.0 * height > 3.0 * (p - 1) as real
  {
    CeilIs(4.0 / 3.0 * height);
  }

  /** Row k, counted from zero, has the height of the first row numbered k + 1 that has one, and 20 pixels if none has. */
  lemma {:induction false} HeightOf(rows: seq<Row>, k: int, i: nat)
    requires i <= |rows| && forall j :: 0 <= j < i ==> rows[j].R != k + 1 || rows[j].attrs.Ht == 0.0
    ensures i == |rows| ==> RowHeight(rows, k) == 20
    ensures i < |rows| && rows[i].R == k + 1 && rows[i].attrs.Ht != 0.0 ==>
              var p, h := RowHeight(rows, k), rows[i].attrs.Ht; 3.0 * p as real >= 4.0 * h > 3.0 * (p - 1) as real
  {
    hide RowHeightToPixels;
    if i > 0 {
      assert forall j :: 0 <= j < |rows[1..]| ==> rows[1..][j] == rows[j + 1];
      HeightOf(rows[1..], k, i - 1);
    } else if i < |rows| && rows[i].attrs.Ht != 0.0 {
      HeightInPixels(rows[i].attrs.Ht);
    }
  }

  /** A column's width in pixels is the least integer from 12 pixels a unit below one, 7 a unit and 5 more from one on, each with a half more. */
  lemma WidthInPixels(width: real)
    requires width != 0.0
    ensures var p := ColWidthToPixels(width).Floor;
            var exact := if width < 1.0 then 12.0 * width + 0.5 else 7.0 * width + 5.5;
            p as real >= exact > (p - 1) as real
  {
    CeilIs(if width < 1.0 then width * 12.0 + 0.5 else width * 7.0 + 0.5 + 5.0);
  }

  lemma {:induction false} LastWidthIs(cols: seq<Col>, col: int, k: int)
    requires -1 <= k < |cols| && forall j :: k < j < |cols| ==> !(cols[j].Min <= col <= cols[j].Max)
    requires k >= 0 ==> cols[k].Min <= col <= cols[k].Max
    ensures LastWidth(cols, col) == if k < 0 then 0.0 else cols[k].Width
    decreases |cols|
  {
    if cols != [] && k < |cols| - 1 { LastWidthIs(cols[..|cols| - 1], col, k); }
  }

  /** A column has the width of the last range over it, and 64 pixels without a range or with a width of zero. */
  lemma WidthOf(cols: seq<Col>, col: int, k: int)
    requires -1 <= k < |cols| && forall j :: k < j < |cols| ==> !(cols[j].Min <= col <= cols[j].Max)
    requires k >= 0 ==> cols[k].Min <= col <= cols[k].Max
    ensures ColWidth(None, col) == 64
    ensures k < 0 || cols[k].Width == 0.0 ==> ColWidth(Some(cols), col) == 64
    ensures k >= 0 && cols[k].Width != 0.0 ==>
              var p, w := ColWidth(Some(cols), col), cols[k].Width;
              p as real >= (if w < 1.0 then 12.0 * w + 0.5 else 7.0 * w + 5.5) > (p - 1) as real
  {
    hide LastWidth, ColWidthToPixels;
    LastWidthIs(cols, col, k);
    if k >= 0 && cols[k].Width != 0.0 { WidthInPixels(cols[k].Width); }
  }

  predicate SizesNonNegative(s: Sheet) {
    && (s.cols.Some? ==> forall k :: 0 <= k < |s.cols.value| ==> s.cols.value[k].Width >= 0.0)
    && (forall k :: 0 <= k < |s.rows| ==> s.rows[k].attrs.Ht >= 0.0)
  }

  lemma {:induction false} LastWidthNonNegative(cols: seq<Col>, col: int)
    requires forall k :: 0 <= k < |cols| ==> cols[k].Width >= 0.0
    ensures LastWidth(cols, col) >= 0.0
  {
    if cols != [] { LastWidthNonNegative(cols[..|cols| - 1], col); }
  }

  /** With non-negative settings every cell is at least one pixel wide and high. */
  lemma {:induction false} SizesPositive(cols: Option<seq<Col>>, rows: seq<Row>, k: int)
    requires cols.Some? ==> forall i :: 0 <= i < |cols.value| ==> cols.value[i].Width >= 0.0
    requires forall i :: 0 <= i < |rows| ==> rows[i].attrs.Ht >= 0.0
    ensures ColWidth(cols, k) >= 1 && RowHeight(rows, k) >= 1
  {
    if cols.Some? { LastWidthNonNegative(cols.value, k); }
    if rows != [] { SizesPositive(cols, rows[1..], k); }
  }

  // ---------- walking over cells

  ghost predicate Positive(size: int -> int) { forall k :: size(k) >= 1 }

  function Widths(cols: Option<seq<Col>>): (size: int -> int) { c => ColWidth(cols, c) }

  function Heights(rows: seq<Row>): (size: int -> int) { r => RowHeight(rows, r) }

  lemma WidthsPositive(cols: Option<seq<Col>>, rows: seq<Row>)
    requires cols.Some? ==> forall i :: 0 <= i < |cols.value| ==> cols.value[i].Width >= 0.0
    requires forall i :: 0 <= i < |rows| ==> rows[i].attrs.Ht >= 0.0
    ensures Positive(Widths(cols)) && Positive(Heights(rows))
  {
    hide ColWidth, RowHeight;
    forall k
      ensures Widths(cols)(k) >= 1 && Heights(rows)(k) >= 1
    {
      SizesPositive(cols, rows, k);
    }
  }

  /** Total size of cells a to b - 1. */
  function Sum(size: int -> int, a: int, b: int): (total: int)
    decreases b - a
  {
    if b <= a then 0 else Sum(size, a, b - 1) + size(b - 1)
  }

  /** The position i reaches distance dist from the start of cell a, with rest left inside cell i. */
  predicate Reaches(size: int -> int, a: int, dist: int, i: int, rest: int) {
    i >= a && dist == Sum(size, a, i) + rest && rest < size(i) && (i > a ==> rest >= 0)
  }

  lemma {:induction false} SumSplits(size: int -> int, a: int, b: int, c: int)
    requires a <= b <= c
    ensures Sum(size, a, c) == Sum(size, a, b) + Sum(size, b, c)
    decreases c - b
  {
    if b < c { SumSplits(size, a, b, c - 1); }
  }

  lemma {:induction false} SumAtLeast(size: int -> int, a: int, b: int)
    requires a <= b && Positive(size)
    ensures Sum(size, a, b) >= b - a
    decreases b - a
  {
    if a < b { SumAtLeast(size, a, b - 1); }
  }

  /** There is only one position at a given distance. */
  lemma ReachesOnce(size: int -> int, a: int, dist: int, i: int, rest: int, j: int, rest': int)
    requires Positive(size) && Reaches(size, a, dist, i, rest) && Reaches(size, a, dist, j, rest')
    ensures i == j && rest == rest'
  {
    if i < j {
      ReachesNoFurther(size, a, dist, i, rest, j, rest');
    } else if j < i {
      ReachesNoFurther(size, a, dist, j, rest', i, rest);
    }
  }

  lemma ReachesNoFurther(size: int -> int, a: int, dist: int, i: int, rest: int, j: int, rest': int)
    requires Positive(size) && Reaches(size, a, dist, i, rest) && Reaches(size, a, dist, j, rest')
    ensures i >= j
  {
    if i < j {
      SumSplits(size, a, i, j);
      SumSplits(size, i, i + 1, j);
      SumAtLeast(size, i + 1, j);
    }
  }

  /** The subtracting loop: leave cells behind while the distance covers them. */
  method Walk(size: int -> int, from: int, distance: int) returns (i: int, rest: int)
    requires Positive(size)
    ensures Reaches(size, from, distance, i, rest)
  {
    i, rest := from, distance;
    while rest >= size(i)
      invariant i >= from && distance == Sum(size, from, i) + rest && (i > from ==> rest >= 0)
      decreases rest
    {
      rest := rest - size(i);
      i := i + 1;
    }
  }

  method SumSizes(size: int -> int, last: int) returns (total: int)
    ensures total == Sum(size, 1, last + 1)
  {
    total := 0;
    var id := 1;
    while id <= last
      invariant id >= 1 && (id <= last + 1 || id == 1) && total == Sum(size, 1, id)
    {
      total := total + size(id);
      id := id + 1;
    }
  }

  /** Where an object starts and ends, and how far into its last cell. */
  datatype Span = Span(colStart: int, rowStart: int, xAbs: int, yAbs: int, colEnd: int, rowEnd: int, x2: int, y2: int)

  /**
   The start cell is reached from the given cell by the offset; the end cell is reached from the
   start cell by what is left of the offset plus the size. Columns are counted from zero here but
   sized from one: the end loop allows for that and the start loop does not.
   */
  ghost predicate Spans(colWidth: int -> int, rowHeight: int -> int, col: int, row: int,
                        x1: int, y1: int, width: int, height: int, p: Span) {
    && p.xAbs == Sum(colWidth, 1, col + 1) + x1
    && p.yAbs == Sum(rowHeight, 1, row + 1) + y1
    && (exists x :: Reaches(colWidth, col, x1, p.colStart, x) &&
                    Reaches(colWidth, p.colStart + 1, width + x, p.colEnd + 1, p.x2))
    && (exists y :: Reaches(rowHeight, row, y1, p.rowStart, y) &&
                    Reaches(rowHeight, p.rowStart, height + y, p.rowEnd, p.y2))
  }

  lemma Spanned(colWidth: int -> int, rowHeight: int -> int, col: int, row: int,
                x1: int, y1: int, width: int, height: int, p: Span, x: int, y: int)
    requires p.xAbs == Sum(colWidth, 1, col + 1) + x1 && p.yAbs == Sum(rowHeight, 1, row + 1) + y1
    requires Reaches(colWidth, col, x1, p.colStart, x) && Reaches(colWidth, p.colStart + 1, width + x, p.colEnd + 1, p.x2)
    requires Reaches(rowHeight, row, y1, p.rowStart, y) && Reaches(rowHeight, p.rowStart, height + y, p.rowEnd, p.y2)
    ensures Spans(colWidth, rowHeight, col, row, x1, y1, width, height, p)
  {
    hide Reaches, Sum;
  }

  method PositionObjectPixels(s: Sheet, col: int, row: int, x1: int, y1: int, width: int, height: int) returns (p: Span)
    requires SizesNonNegative(s)
    ensures Spans(Widths(s.cols), Heights(s.rows), col, row, x1, y1, width, height, p)
  {
    hide ColWidth, RowHeight, Widths, Heights, Positive, Reaches, Sum, Spans;
    var colWidth, rowHeight := Widths(s.cols), Heights(s.rows);
    WidthsPositive(s.cols, s.rows);
    var xAbs := SumSizes(colWidth, col);
    xAbs := xAbs + x1;
    var yAbs := SumSizes(rowHeight, row);
    yAbs := yAbs + y1;
    var colStart, x := Walk(colWidth, col, x1);
    var rowStart, y := Walk(rowHeight, row, y1);
    var next, x2 := Walk(colWidth, colStart + 1, width + x);
    var rowEnd, y2 := Walk(rowHeight, rowStart, height + y);
    p := Span(colStart, rowStart, xAbs, yAbs, next - 1, rowEnd, x2, y2);
    Spanned(colWidth, rowHeight, col, row, x1, y1, width, height, p, x, y);
  }

  /** An offset and a size have one span only. */
  lemma SpanUnique(colWidth: int -> int, rowHeight: int -> int, col: int, row: int,
                   x1: int, y1: int, width: int, height: int, p: Span, q: Span)
    requires Positive(colWidth) && Positive(rowHeight)
    requires Spans(colWidth, rowHeight, col, row, x1, y1, width, height, p)
    requires Spans(colWidth, rowHeight, col, row, x1, y1, width, height, q)
    ensures p == q
  {
    hide Reaches, Sum, Positive;
    var x :| Reaches(colWidth, col, x1, p.colStart, x) && Reaches(colWidth, p.colStart + 1, width + x, p.colEnd + 1, p.x2);
    var x' :| Reaches(colWidth, col, x1, q.colStart, x') && Reaches(colWidth, q.colStart + 1, width + x', q.colEnd + 1, q.x2);
    ReachesOnce(colWidth, col, x1, p.colStart, x, q.colStart, x');
    ReachesOnce(colWidth, p.colStart + 1, width + x, p.colEnd + 1, p.x2, q.colEnd + 1, q.x2);
    var y :| Reaches(rowHeight, row, y1, p.rowStart, y) && Reaches(rowHeight, p.rowStart, height + y, p.rowEnd, p.y2);
    var y' :| Reaches(rowHeight, row, y1, q.rowStart, y') && Reaches(rowHeight, q.rowStart, height + y', q.rowEnd, q.y2);
    ReachesOnce(rowHeight, row, y1, p.rowStart, y, q.rowStart, y');
    ReachesOnce(rowHeight, p.rowStart, height + y, p.rowEnd, p.y2, q.rowEnd, q.y2);
  }

  /** Lengths are conserved, and a non-negative offset and size end inside the end cell. */
  lemma SpanConserves(colWidth: int -> int, rowHeight: int -> int, col: int, row: int,
                      x1: int, y1: int, width: int, height: int, p: Span)
    requires Positive(colWidth) && Positive(rowHeight) && x1 >= 0 && y1 >= 0 && width >= 0 && height >= 0
    requires Spans(colWidth, rowHeight, col, row, x1, y1, width, height, p)
    ensures x1 + width == Sum(colWidth, col, p.colStart) + Sum(colWidth, p.colStart + 1, p.colEnd + 1) + p.x2
    ensures y1 + height == Sum(rowHeight, row, p.rowEnd) + p.y2
    ensures 0 <= p.x2 < colWidth(p.colEnd + 1) && 0 <= p.y2 < rowHeight(p.rowEnd)
    ensures col <= p.colStart <= p.colEnd && row <= p.rowStart <= p.rowEnd
  {
    var x :| Reaches(colWidth, col, x1, p.colStart, x) && Reaches(colWidth, p.colStart + 1, width + x, p.colEnd + 1, p.x2);
    var y :| Reaches(rowHeight, row, y1, p.rowStart, y) && Reaches(rowHeight, p.rowStart, height + y, p.rowEnd, p.y2);
    SumSplits(rowHeight, row, p.rowStart, p.rowEnd);
  }

  // ---------- zero-based columns measured by one-based widths

  /** The widths of columns counted from zero. */
  function Own(colWidth: int -> int): (size: int -> int) { c => colWidth(c + 1) }

  lemma {:induction false} SumMoved(size: int -> int, a: int, b: int)
    ensures Sum(Own(size), a, b) == Sum(size, a + 1, b + 1)
    decreases b - a
  {
    if a < b { SumMoved(size, a, b - 1); }
  }

  lemma OwnPositive(size: int -> int)
    requires Positive(size)
    ensures Positive(Own(size))
  {
  }

  lemma OwnReaches(size: int -> int, a: int, dist: int, i: int, rest: int)
    ensures Reaches(Own(size), a, dist, i, rest) <==> Reaches(size, a + 1, dist, i + 1, rest)
  {
    SumMoved(size, a, i);
  }

  /** Between cells a and i the sums from a and from a + 1 differ by the two cells at the ends. */
  lemma SumSlides(size: int -> int, a: int, i: int)
    requires a <= i
    ensures Sum(size, a + 1, i + 1) - Sum(size, a, i) == size(i) - size(a)
  {
    SumSplits(size, a, i, i + 1);
    SumSplits(size, a, a + 1, i + 1);
    assert Sum(size, a, a + 1) == size(a) by { assert Sum(size, a, a) == 0; }
  }

  /** Distance x from the start of cell a falls into cell j. */
  predicate FallsInto(size: int -> int, a: int, x: int, j: int) {
    Sum(size, a, j) <= x < Sum(size, a, j + 1)
  }

  lemma FallsIntoMeans(size: int -> int, a: int, x: int, j: int)
    requires j >= a && x >= 0
    ensures FallsInto(size, a, x, j) <==> Reaches(size, a, x, j, x - Sum(size, a, j))
  {
  }

  /** For a column j counted from zero: the widths the start loop subtracts, and the columns' own, both put x into it. */
  predicate BothFallInto(colWidth: int -> int, col: int, x: int, j: int) {
    FallsInto(colWidth, col, x, j) && FallsInto(colWidth, col + 1, x, j + 1)
  }

  /** In terms of where the true start leaves the offset: one walk reaches the other's column exactly if the rest fits. */
  lemma OwnDecides(size: int -> int, a: int, x: int, i: int, rest: int, own: int, ownRest: int)
    requires Positive(size) && x >= 0 && Reaches(size, a, x, i, rest) && Reaches(size, a + 1, x, own + 1, ownRest)
    ensures i == own <==> size(a) - size(own) <= ownRest < size(a)
  {
    hide Positive;
    SumSlides(size, a, own);
    var r := x - Sum(size, a, own);
    if size(a) - size(own) <= ownRest < size(a) {
      assert Reaches(size, a, x, own, r);
      ReachesOnce(size, a, x, i, rest, own, r);
    }
  }

  lemma StartFound(size: int -> int, a: int, x: int, i: int, rest: int, own: int, ownRest: int)
    requires Positive(size) && x >= 0 && Reaches(size, a, x, i, rest) && Reaches(size, a + 1, x, own + 1, ownRest)
    ensures i == own <==> exists j :: j >= a && BothFallInto(size, a, x, j)
    ensures i == own <==> size(a) - size(own) <= ownRest < size(a)
    ensures i == own ==> rest - ownRest == size(own) - size(a)
  {
    OwnDecides(size, a, x, i, rest, own, ownRest);
    FallsIntoMeans(size, a, x, i);
    FallsIntoMeans(size, a + 1, x, own + 1);
    if i == own {
      SumSlides(size, a, i);
      assert BothFallInto(size, a, x, i);
    } else {
      forall j | j >= a
        ensures !BothFallInto(size, a, x, j)
      {
        if BothFallInto(size, a, x, j) { OnlyOne(size, a, x, i, rest, own, ownRest, j); }
      }
    }
  }

  lemma OnlyOne(size: int -> int, a: int, x: int, i: int, rest: int, own: int, ownRest: int, j: int)
    requires Positive(size) && x >= 0 && Reaches(size, a, x, i, rest) && Reaches(size, a + 1, x, own + 1, ownRest)
    requires j >= a && BothFallInto(size, a, x, j)
    ensures i == own == j
  {
    hide Reaches, FallsInto, Positive, Sum;
    FallsIntoMeans(size, a, x, j);
    FallsIntoMeans(size, a + 1, x, j + 1);
    ReachesOnce(size, a, x, i, rest, j, x - Sum(size, a, j));
    ReachesOnce(size, a + 1, x, own + 1, ownRest, j + 1, x - Sum(size, a + 1, j + 1));
  }

  /**
   The start loop reads a zero-based index as one-based, so it subtracts the width of the column to
   the left. Measured by the columns' own widths the start would be own, with rest left of the
   offset. The loop finds it exactly when rest, corrected by the difference between the two left
   neighbours, fits the neighbour; that is, when some column holds the offset under either way of
   measuring. What it then carries into the end loop is off by that difference.
   */
  lemma StartColumn(colWidth: int -> int, rowHeight: int -> int, col: int, row: int,
                    x1: int, y1: int, width: int, height: int, p: Span, own: int, rest: int)
    requires Positive(colWidth) && x1 >= 0 && Spans(colWidth, rowHeight, col, row, x1, y1, width, height, p)
    requires Reaches(Own(colWidth), col, x1, own, rest)
    ensures p.colStart == own <==> colWidth(col) - colWidth(own) <= rest < colWidth(col)
    ensures p.colStart == own <==> exists j :: j >= col && BothFallInto(colWidth, col, x1, j)
    ensures p.colStart == own ==>
              forall x :: Reaches(colWidth, col, x1, p.colStart, x) ==> x - rest == colWidth(own) - colWidth(col)
  {
    hide Reaches, BothFallInto, Positive, Sum;
    var x :| Reaches(colWidth, col, x1, p.colStart, x) && Reaches(colWidth, p.colStart + 1, width + x, p.colEnd + 1, p.x2);
    OwnReaches(colWidth, col, x1, own, rest);
    StartFound(colWidth, col, x1, p.colStart, x, own, rest);
    forall x' | Reaches(colWidth, col, x1, p.colStart, x')
      ensures x' == x
    {
      ReachesOnce(colWidth, col, x1, p.colStart, x, p.colStart, x');
    }
  }

  /** The start column is the one that the offset falls into by the widths that the start loop subtracts. */
  lemma StartFallsInto(colWidth: int -> int, rowHeight: int -> int, col: int, row: int,
                       x1: int, y1: int, width: int, height: int, p: Span)
    requires Positive(colWidth) && x1 >= 0 && Spans(colWidth, rowHeight, col, row, x1, y1, width, height, p)
    ensures forall j :: j >= col ==> (FallsInto(colWidth, col, x1, j) <==> j == p.colStart)
    ensures p.colStart >= col
  {
    hide Positive, Sum, FallsInto;
    var x :| Reaches(colWidth, col, x1, p.colStart, x) && Reaches(colWidth, p.colStart + 1, width + x, p.colEnd + 1, p.x2);
    FallsIntoMeans(colWidth, col, x1, p.colStart);
    forall j | j >= col && FallsInto(colWidth, col, x1, j)
      ensures j == p.colStart
    {
      FallsIntoMeans(colWidth, col, x1, j);
      ReachesOnce(colWidth, col, x1, p.colStart, x, j, x1 - Sum(colWidth, col, j));
    }
  }

  lemma EndFound(size: int -> int, a: int, x: int, width: int, i: int, rest: int, end: int, x2: int)
    requires x >= 0 && width >= 0 && Reaches(size, a, x, i, rest) && Reaches(size, i + 1, width + rest, end + 1, x2)
    ensures Reaches(size, a + 1, x + width + size(i) - size(a), end + 1, x2)
  {
    SumSlides(size, a, i);
    SumSplits(size, a + 1, i + 1, end + 1);
  }

  /**
   The end found is the true end of an object that stands further right by the difference between
   the widths to the left of the start column and of the given one. So it is the true end exactly
   when the two widths are equal, that is when the offset falls into a column as wide as the given
   one: a right start column may still lead to a wrong end, and a wrong one to the right end.
   */
  lemma EndColumn(colWidth: int -> int, rowHeight: int -> int, col: int, row: int,
                  x1: int, y1: int, width: int, height: int, p: Span, end: int, x2: int)
    requires Positive(colWidth) && x1 >= 0 && width >= 0
    requires Spans(colWidth, rowHeight, col, row, x1, y1, width, height, p)
    requires Reaches(Own(colWidth), col, x1 + width, end, x2)
    ensures var further := colWidth(p.colStart) - colWidth(col);
            Reaches(Own(colWidth), col, x1 + width + further, p.colEnd, p.x2)
    ensures p.colEnd == end && p.x2 == x2 <==> colWidth(p.colStart) == colWidth(col)
    ensures p.colEnd == end && p.x2 == x2 <==>
            exists j :: j >= col && FallsInto(colWidth, col, x1, j) && colWidth(j) == colWidth(col)
  {
    hide Positive, Sum;
    StartFallsInto(colWidth, rowHeight, col, row, x1, y1, width, height, p);
    var x :| Reaches(colWidth, col, x1, p.colStart, x) && Reaches(colWidth, p.colStart + 1, width + x, p.colEnd + 1, p.x2);
    var dist := x1 + width + colWidth(p.colStart) - colWidth(col);
    EndFound(colWidth, col, x1, width, p.colStart, x, p.colEnd, p.x2);
    OwnReaches(colWidth, col, dist, p.colEnd, p.x2);
    if dist == x1 + width {
      OwnPositive(colWidth);
      ReachesOnce(Own(colWidth), col, dist, p.colEnd, p.x2, end, x2);
    }
  }

  /** Columns A and B narrowed to 10 pixels, C widened to 100, all others at their default. */
  const UNEVEN := [Col(1, 2, 0.75, 0), Col(3, 3, 13.5, 0)]

  lemma UnevenWidths()
    ensures var w := Widths(Some(UNEVEN)); w(0) == 64 && w(1) == 10 && w(2) == 10 && w(3) == 100
  {
    var front := UNEVEN[..1];
    assert UNEVEN[..|UNEVEN| - 1] == front == [Col(1, 2, 0.75, 0)] && front[..0] == [];
    assert LastWidth([], 0) == 0.0 && LastWidth([], 1) == 0.0;
    assert LastWidth(UNEVEN, 0) == 0.0 && LastWidth(UNEVEN, 1) == 0.75 && LastWidth(UNEVEN, 2) == 0.75 && LastWidth(UNEVEN, 3) == 13.5;
    assert ColWidthToPixels(0.75) == 10.0 && ColWidthToPixels(13.5) == 100.0;
  }

  /** On such a sheet an offset of 70 from column 0 is said to start in column 1 but lies in column 2. */
  lemma WrongStart(rows: seq<Row>, p: Span, y1: int, width: int, height: int)
    requires forall k :: 0 <= k < |rows| ==> rows[k].attrs.Ht >= 0.0
    requires Spans(Widths(Some(UNEVEN)), Heights(rows), 0, 0, 70, y1, width, height, p)
    ensures p.colStart == 1 && Reaches(Own(Widths(Some(UNEVEN))), 0, 70, 2, 50)
  {
    hide ColWidth, RowHeight;
    var w := Widths(Some(UNEVEN));
    UnevenWidths();
    WidthsPositive(Some(UNEVEN), rows);
    var x :| Reaches(w, 0, 70, p.colStart, x) && Reaches(w, p.colStart + 1, width + x, p.colEnd + 1, p.x2);
    assert Sum(w, 0, 1) == 64 by { assert Sum(w, 0, 0) == 0; }
    ReachesOnce(w, 0, 70, p.colStart, x, 1, 6);
    assert Sum(Own(w), 0, 2) == 20 by { assert Sum(Own(w), 0, 0) == 0 && Sum(Own(w), 0, 1) == 10; }
  }

  /**
   Rows are sized from zero, but the loop for the absolute position adds rows 1 to row: the result
   is right exactly when the given row is as high as the first.
   */
  lemma AbsoluteRow(colWidth: int -> int, rowHeight: int -> int, col: int, row: int,
                    x1: int, y1: int, width: int, height: int, p: Span)
    requires row >= 0 && Spans(colWidth, rowHeight, col, row, x1, y1, width, height, p)
    ensures p.yAbs - (Sum(rowHeight, 0, row) + y1) == rowHeight(row) - rowHeight(0)
    ensures p.yAbs == Sum(rowHeight, 0, row) + y1 <==> rowHeight(row) == rowHeight(0)
  {
    hide Reaches, Sum;
    SumSlides(rowHeight, 0, row);
  }
}
