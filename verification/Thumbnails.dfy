/**
 * The 32 by 18 brightness thumbnail that decides whether a frame is a duplicate: each cell
 * is the average brightness of a rectangle of pixels.
 */
module Thumbnails {
  import opened Frames

  const WIDTH: nat := 32
  const HEIGHT: nat := 18

  /** Where a cell starts along one axis of `size` pixels. */
  function CellStart(c: nat, size: nat, cells: nat): nat
    requires cells > 0
  {
    c * size / cells
  }

  /** Where it ends: at the next cell, or one pixel on if that is the same, but inside. */
  function CellEnd(c: nat, size: nat, cells: nat): nat
    requires cells > 0
  {
    var next := (c + 1) * size / cells;
    var end := if next > CellStart(c, size, cells) then next else CellStart(c, size, cells) + 1;
    if end < size then end else size
  }

  lemma {:induction false} CellIsNotEmpty(c: nat, size: nat, cells: nat)
    requires c < cells && size > 0
    ensures CellStart(c, size, cells) < CellEnd(c, size, cells) <= size
  {
    ScaledBelow(c, size, cells);
  }

  predicate InCell(x: nat, c: nat, size: nat, cells: nat)
    requires cells > 0
  {
    CellStart(c, size, cells) <= x < CellEnd(c, size, cells)
  }

  /** Every pixel is in a cell, however small the frame. */
  lemma {:induction false} EveryPixelHasCell(x: nat, size: nat, cells: nat) returns (c: nat)
    requires x < size && cells > 0
    ensures c < cells && InCell(x, c, size, cells)
  {
    var a := (x + 1) * cells - 1;
    c := a / size;
    QuotientBounds(a, size);
    LessTimes(x + 1, size, cells);
    assert size * cells == cells * size;
    QuotientBelow(a, size, cells);
    QuotientBelow(c * size, cells, x + 1);
    QuotientBelow((c + 1) * size, cells, x + 1);
  }

  /** No two cells share a pixel along this axis. */
  predicate CellsAreDisjoint(size: nat, cells: nat)
    requires cells > 0
  {
    forall c, d :: 0 <= c < d < cells ==> CellEnd(c, size, cells) <= CellStart(d, size, cells)
  }

  lemma {:induction false} WideCell(c: nat, size: nat, cells: nat)
    requires c < cells <= size
    ensures CellEnd(c, size, cells) == CellStart(c + 1, size, cells) > CellStart(c, size, cells)
  {
    assert (c + 1) * size == c * size + size;
    QuotientBounds(c * size, cells);
    QuotientBelow((c + 1) * size, cells, c * size / cells + 1);
    assert (c * size / cells + 1) * cells == (c * size / cells) * cells + cells;
    LessTimes(c + 1, cells, size);
    assert cells * size == size * cells;
    QuotientBelow((c + 1) * size, cells, size + 1);
    assert (size + 1) * cells == size * cells + cells;
  }

  lemma {:induction false} LaterCellStartsBehind(c: nat, d: nat, size: nat, cells: nat)
    requires c < d < cells <= size
    ensures CellEnd(c, size, cells) <= CellStart(d, size, cells)
  {
    WideCell(c, size, cells);
    LessTimes(c + 1, d, size);
    QuotientMonotone((c + 1) * size, d * size, cells);
  }

  /** The cells partition the pixels exactly when there are at least as many pixels as cells. */
  lemma {:induction false} CellsPartitionExactly(size: nat, cells: nat)
    requires size > 0 && cells > 0
    ensures CellsAreDisjoint(size, cells) <==> size >= cells
  {
    if size >= cells {
      forall c, d | 0 <= c < d < cells ensures CellEnd(c, size, cells) <= CellStart(d, size, cells) {
        LaterCellStartsBehind(c, d, size, cells);
      }
    } else {
      CellIsNotEmpty(0, size, cells);
      assert CellStart(1, size, cells) == 0;
      assert !(CellEnd(0, size, cells) <= CellStart(1, size, cells));
    }
  }

  // ------------------------------------------------------------- brightness

  function Brightness(f: Frame, x: nat, y: nat): (v: Byte)
    requires ValidFrame(f) && x < f.width && y < f.height
  {
    PixelInBounds(f, x, y);
    var at := Offset(f, x, y);
    Weighted(f.data[at], f.data[at + 1], f.data[at + 2])
  }

  function Weighted(red: Byte, green: Byte, blue: Byte): Byte {
    (red * 54 + green * 183 + blue * 19) / 256
  }

  /** Brightness is the weighted mean, rounded down, in which green counts most and blue least;
      it lies between the darkest and the lightest channel, so grey pixels keep their value. */
  lemma {:induction false} BrightnessBetweenChannels(red: Byte, green: Byte, blue: Byte, low: Byte, high: Byte)
    requires low <= red <= high && low <= green <= high && low <= blue <= high
    ensures low <= Weighted(red, green, blue) <= high
    ensures 256 * Weighted(red, green, blue) <= 54 * red + 183 * green + 19 * blue
    ensures 256 * Weighted(red, green, blue) + 256 > 54 * red + 183 * green + 19 * blue
  {
  }

  predicate Inside(f: Frame, left: nat, right: nat, top: nat, bottom: nat) {
    ValidFrame(f) && left <= right <= f.width && top <= bottom <= f.height
  }

  function RowSum(f: Frame, left: nat, right: nat, y: nat): nat
    requires Inside(f, left, right, y, y + 1)
    decreases right - left
  {
    if left == right then 0 else RowSum(f, left, right - 1, y) + Brightness(f, right - 1, y)
  }

  function BlockSum(f: Frame, left: nat, right: nat, top: nat, bottom: nat): nat
    requires Inside(f, left, right, top, bottom)
    decreases bottom - top
  {
    if top == bottom then 0
    else BlockSum(f, left, right, top, bottom - 1) + RowSum(f, left, right, bottom - 1)
  }

  predicate BrightnessWithin(f: Frame, left: nat, right: nat, top: nat, bottom: nat, low: nat, high: nat)
    requires Inside(f, left, right, top, bottom)
  {
    forall x, y :: left <= x < right && top <= y < bottom ==> low <= Brightness(f, x, y) <= high
  }

  lemma {:induction false} RowSumWithin(f: Frame, left: nat, right: nat, y: nat, low: nat, high: nat)
    requires Inside(f, left, right, y, y + 1) && BrightnessWithin(f, left, right, y, y + 1, low, high)
    ensures (right - left) * low <= RowSum(f, left, right, y) <= (right - left) * high
    decreases right - left
  {
    if left < right {
      RowSumWithin(f, left, right - 1, y, low, high);
      Grows(right - 1 - left, low);
      Grows(right - 1 - left, high);
    }
  }

  lemma {:induction false} Grows(n: nat, v: nat)
    ensures (n + 1) * v == n * v + v
  {
  }

  predicate RowsWithin(f: Frame, left: nat, right: nat, top: nat, bottom: nat, low: nat, high: nat)
    requires Inside(f, left, right, top, bottom)
  {
    forall y :: top <= y < bottom ==> low <= RowSum(f, left, right, y) <= high
  }

  lemma {:induction false} BlockSumWithin(f: Frame, left: nat, right: nat, top: nat, bottom: nat, low: nat, high: nat)
    requires Inside(f, left, right, top, bottom) && RowsWithin(f, left, right, top, bottom, low, high)
    ensures (bottom - top) * low <= BlockSum(f, left, right, top, bottom) <= (bottom - top) * high
    decreases bottom - top
  {
    if top < bottom {
      BlockSumWithin(f, left, right, top, bottom - 1, low, high);
      Grows(bottom - 1 - top, low);
      Grows(bottom - 1 - top, high);
    }
  }

  /** The average of a non-empty block lies between its darkest and lightest pixel. */
  lemma {:induction false} AverageWithin(f: Frame, left: nat, right: nat, top: nat, bottom: nat, low: nat, high: nat)
    requires Inside(f, left, right, top, bottom) && left < right && top < bottom
    requires BrightnessWithin(f, left, right, top, bottom, low, high)
    ensures var count := (bottom - top) * (right - left);
      count > 0 && low <= BlockSum(f, left, right, top, bottom) / count <= high
  {
    forall y | top <= y < bottom
      ensures (right - left) * low <= RowSum(f, left, right, y) <= (right - left) * high
    {
      RowSumWithin(f, left, right, y, low, high);
    }
    BlockSumWithin(f, left, right, top, bottom, (right - left) * low, (right - left) * high);
    AverageOf(bottom - top, right - left, BlockSum(f, left, right, top, bottom), low, high);
  }

  lemma {:induction false} AverageOf(rows: nat, columns: nat, sum: nat, low: nat, high: nat)
    requires rows > 0 && columns > 0 && rows * (columns * low) <= sum <= rows * (columns * high)
    ensures rows * columns > 0 && low <= sum / (rows * columns) <= high
  {
    LessTimes(1, rows, columns);
    var count := rows * columns;
    Regroup(rows, columns, low);
    Regroup(rows, columns, high);
    QuotientBelow(sum, count, low);
    Grows(high, count);
    QuotientBelow(sum, count, high + 1);
  }

  lemma {:induction false} Regroup(a: nat, b: nat, c: nat)
    ensures a * (b * c) == c * (a * b)
  {
  }

  // ------------------------------------------------------------- the thumbnail

  function CellSum(f: Frame, column: nat, row: nat): nat
    requires ValidFrame(f) && column < WIDTH && row < HEIGHT
  {
    CellIsNotEmpty(column, f.width, WIDTH);
    CellIsNotEmpty(row, f.height, HEIGHT);
    BlockSum(f, CellStart(column, f.width, WIDTH), CellEnd(column, f.width, WIDTH),
             CellStart(row, f.height, HEIGHT), CellEnd(row, f.height, HEIGHT))
  }

  /** Adds up and counts the pixels of one cell; the average always fits a byte. */
  method AverageBlock(f: Frame, left: nat, right: nat, top: nat, bottom: nat) returns (average: Byte)
    requires Inside(f, left, right, top, bottom) && left < right && top < bottom
    ensures (bottom - top) * (right - left) > 0
    ensures average == BlockSum(f, left, right, top, bottom) / ((bottom - top) * (right - left))
  {
    AverageWithin(f, left, right, top, bottom, 0, 255);
    var total, count := 0, 0;
    for y := top to bottom
      invariant total == BlockSum(f, left, right, top, y) && count == (y - top) * (right - left)
    {
      var added := AddRow(f, left, right, y, total);
      Grows(y - top, right - left);
      total, count := added, count + (right - left);
    }
    average := total / count;
  }

  /** The innermost loop. */
  method AddRow(f: Frame, left: nat, right: nat, y: nat, before: nat) returns (total: nat)
    requires Inside(f, left, right, y, y + 1)
    ensures total == before + RowSum(f, left, right, y)
  {
    total := before;
    for x := left to right
      invariant total == before + RowSum(f, left, x, y)
    {
      total := total + Brightness(f, x, y);
    }
  }

  predicate IsAverage(f: Frame, column: nat, row: nat, v: Byte)
    requires ValidFrame(f) && column < WIDTH && row < HEIGHT
  {
    var rows := CellEnd(row, f.height, HEIGHT) - CellStart(row, f.height, HEIGHT);
    var columns := CellEnd(column, f.width, WIDTH) - CellStart(column, f.width, WIDTH);
    rows * columns > 0 && v == CellSum(f, column, row) / (rows * columns)
  }

  method AverageCell(f: Frame, column: nat, row: nat) returns (average: Byte)
    requires ValidFrame(f) && column < WIDTH && row < HEIGHT
    ensures IsAverage(f, column, row, average)
  {
    CellIsNotEmpty(column, f.width, WIDTH);
    CellIsNotEmpty(row, f.height, HEIGHT);
    average := AverageBlock(f, CellStart(column, f.width, WIDTH), CellEnd(column, f.width, WIDTH),
                            CellStart(row, f.height, HEIGHT), CellEnd(row, f.height, HEIGHT));
  }

  /** `thumbnail`: cell by cell, row after row. */
  method Thumbnail(f: Frame) returns (result: array<Byte>)
    requires ValidFrame(f)
    ensures result.Length == WIDTH * HEIGHT
    ensures forall i :: 0 <= i < result.Length ==> IsAverage(f, i % WIDTH, i / WIDTH, result[i])
  {
    result := new Byte[WIDTH * HEIGHT];
    for row := 0 to HEIGHT
      invariant forall i :: 0 <= i < row * WIDTH ==> IsAverage(f, i % WIDTH, i / WIDTH, result[i])
    {
      for column := 0 to WIDTH
        invariant forall i :: 0 <= i < row * WIDTH + column ==> IsAverage(f, i % WIDTH, i / WIDTH, result[i])
      {
        var average := AverageCell(f, column, row);
        var at := row * WIDTH + column;
        assert at % WIDTH == column && at / WIDTH == row;
        result[at] := average;
      }
    }
  }

  // ------------------------------------------------------------- nothing counted twice

  lemma {:induction false} RowSumSplits(f: Frame, left: nat, mid: nat, right: nat, y: nat)
    requires Inside(f, left, right, y, y + 1) && left <= mid <= right
    ensures RowSum(f, left, right, y) == RowSum(f, left, mid, y) + RowSum(f, mid, right, y)
    decreases right - mid
  {
    if mid < right { RowSumSplits(f, left, mid, right - 1, y); }
  }

  lemma {:induction false} ColumnsSplit(f: Frame, left: nat, mid: nat, right: nat, top: nat, bottom: nat)
    requires Inside(f, left, right, top, bottom) && left <= mid <= right
    ensures BlockSum(f, left, right, top, bottom)
         == BlockSum(f, left, mid, top, bottom) + BlockSum(f, mid, right, top, bottom)
    decreases bottom - top
  {
    if top < bottom {
      ColumnsSplit(f, left, mid, right, top, bottom - 1);
      RowSumSplits(f, left, mid, right, bottom - 1);
    }
  }

  lemma {:induction false} RowsSplit(f: Frame, left: nat, right: nat, top: nat, mid: nat, bottom: nat)
    requires Inside(f, left, right, top, bottom) && top <= mid <= bottom
    ensures BlockSum(f, left, right, top, bottom)
         == BlockSum(f, left, right, top, mid) + BlockSum(f, left, right, mid, bottom)
    decreases bottom - mid
  {
    if mid < bottom { RowsSplit(f, left, right, top, mid, bottom - 1); }
  }

  /** The first `columns` cells of one row of cells. */
  function RowOfCells(f: Frame, row: nat, columns: nat): nat
    requires ValidFrame(f) && row < HEIGHT && columns <= WIDTH
  {
    if columns == 0 then 0 else RowOfCells(f, row, columns - 1) + CellSum(f, columns - 1, row)
  }

  function AllCells(f: Frame, rows: nat): nat
    requires ValidFrame(f) && rows <= HEIGHT
  {
    if rows == 0 then 0 else AllCells(f, rows - 1) + RowOfCells(f, rows - 1, WIDTH)
  }

  lemma {:induction false} StartBelow(c: nat, size: nat, cells: nat)
    requires c <= cells && cells > 0
    ensures CellStart(c, size, cells) <= size
    ensures c == cells ==> CellStart(c, size, cells) == size
  {
    LessTimes(c, cells, size);
    assert cells * size == size * cells;
    assert (size + 1) * cells == size * cells + cells;
    QuotientBelow(c * size, cells, size + 1);
    QuotientBelow(cells * size, cells, size);
  }

  // The same sums over any ascending cuts, where neighbouring blocks meet.

  predicate Ascending(cuts: seq<nat>, size: nat) {
    && |cuts| > 0
    && (forall i, j :: 0 <= i <= j < |cuts| ==> cuts[i] <= cuts[j])
    && cuts[|cuts| - 1] <= size
  }

  function RowOfBlocks(f: Frame, cuts: seq<nat>, top: nat, bottom: nat, n: nat): nat
    requires Ascending(cuts, f.width) && n < |cuts| && Inside(f, 0, f.width, top, bottom)
  {
    if n == 0 then 0
    else RowOfBlocks(f, cuts, top, bottom, n - 1) + BlockSum(f, cuts[n - 1], cuts[n], top, bottom)
  }

  function Blocks(f: Frame, columns: seq<nat>, rows: seq<nat>, n: nat): nat
    requires ValidFrame(f) && Ascending(columns, f.width) && Ascending(rows, f.height) && n < |rows|
  {
    if n == 0 then 0
    else Blocks(f, columns, rows, n - 1) + RowOfBlocks(f, columns, rows[n - 1], rows[n], |columns| - 1)
  }

  lemma {:induction false} RowOfBlocksIsBlock(f: Frame, cuts: seq<nat>, top: nat, bottom: nat, n: nat)
    requires Ascending(cuts, f.width) && n < |cuts| && Inside(f, 0, f.width, top, bottom)
    ensures RowOfBlocks(f, cuts, top, bottom, n) == BlockSum(f, cuts[0], cuts[n], top, bottom)
  {
    if n == 0 {
      EmptyBlock(f, cuts[0], top, bottom);
    } else {
      RowOfBlocksIsBlock(f, cuts, top, bottom, n - 1);
      ColumnsSplit(f, cuts[0], cuts[n - 1], cuts[n], top, bottom);
    }
  }

  lemma {:induction false} BlocksAreBlock(f: Frame, columns: seq<nat>, rows: seq<nat>, n: nat)
    requires ValidFrame(f) && Ascending(columns, f.width) && Ascending(rows, f.height) && n < |rows|
    ensures Blocks(f, columns, rows, n) == BlockSum(f, columns[0], columns[|columns| - 1], rows[0], rows[n])
  {
    if n == 0 {
    } else {
      BlocksAreBlock(f, columns, rows, n - 1);
      RowOfBlocksIsBlock(f, columns, rows[n - 1], rows[n], |columns| - 1);
      RowsSplit(f, columns[0], columns[|columns| - 1], rows[0], rows[n - 1], rows[n]);
    }
  }

  lemma {:induction false} EmptyBlock(f: Frame, x: nat, top: nat, bottom: nat)
    requires Inside(f, x, x, top, bottom)
    ensures BlockSum(f, x, x, top, bottom) == 0
    decreases bottom - top
  {
    if top < bottom { EmptyBlock(f, x, top, bottom - 1); }
  }

  function Cuts(size: nat, cells: nat): (cuts: seq<nat>)
    requires cells > 0
    ensures |cuts| == cells + 1
  {
    seq(cells + 1, c requires 0 <= c => CellStart(c, size, cells))
  }

  lemma {:induction false} CutsAscend(size: nat, cells: nat)
    requires cells > 0
    ensures Ascending(Cuts(size, cells), size)
    ensures Cuts(size, cells)[0] == 0 && Cuts(size, cells)[cells] == size
  {
    var cuts := Cuts(size, cells);
    forall i, j | 0 <= i <= j < |cuts| ensures cuts[i] <= cuts[j] {
      LessTimes(i, j, size);
      QuotientMonotone(i * size, j * size, cells);
    }
    StartBelow(cells, size, cells);
  }

  lemma {:induction false} CellIsBetweenCuts(size: nat, cells: nat, c: nat)
    requires c < cells <= size
    ensures CellStart(c, size, cells) == Cuts(size, cells)[c] && CellEnd(c, size, cells) == Cuts(size, cells)[c + 1]
  {
    WideCell(c, size, cells);
  }

  lemma {:induction false} CellsAreBlocks(f: Frame, columns: seq<nat>, rows: seq<nat>, row: nat, n: nat)
    requires ValidFrame(f) && f.width >= WIDTH && f.height >= HEIGHT && row < HEIGHT && n <= WIDTH
    requires columns == Cuts(f.width, WIDTH) && rows == Cuts(f.height, HEIGHT)
    requires Ascending(columns, f.width) && Ascending(rows, f.height)
    ensures RowOfCells(f, row, n) == RowOfBlocks(f, columns, rows[row], rows[row + 1], n)
  {
    if n == 0 {
    } else {
      CellsAreBlocks(f, columns, rows, row, n - 1);
      CellIsBlock(f, columns, rows, n - 1, row);
    }
  }

  lemma {:induction false} CellIsBlock(f: Frame, columns: seq<nat>, rows: seq<nat>, column: nat, row: nat)
    requires ValidFrame(f) && f.width >= WIDTH && f.height >= HEIGHT && row < HEIGHT && column < WIDTH
    requires columns == Cuts(f.width, WIDTH) && rows == Cuts(f.height, HEIGHT)
    requires Ascending(columns, f.width) && Ascending(rows, f.height)
    ensures CellSum(f, column, row) == BlockSum(f, columns[column], columns[column + 1], rows[row], rows[row + 1])
  {
    CellIsBetweenCuts(f.width, WIDTH, column);
    CellIsBetweenCuts(f.height, HEIGHT, row);
  }

  lemma {:induction false} AllCellsAreBlocks(f: Frame, columns: seq<nat>, rows: seq<nat>, n: nat)
    requires ValidFrame(f) && f.width >= WIDTH && f.height >= HEIGHT && n <= HEIGHT
    requires columns == Cuts(f.width, WIDTH) && rows == Cuts(f.height, HEIGHT)
    requires Ascending(columns, f.width) && Ascending(rows, f.height)
    ensures AllCells(f, n) == Blocks(f, columns, rows, n)
  {
    if n == 0 {
    } else {
      AllCellsAreBlocks(f, columns, rows, n - 1);
      CellsAreBlocks(f, columns, rows, n - 1, WIDTH);
    }
  }

  /** On a frame of at least 32 by 18 pixels the cells together hold the brightness of the
      whole frame: no pixel is left out and none is counted twice. */
  lemma {:induction false} ThumbnailConservesBrightness(f: Frame)
    requires ValidFrame(f) && f.width >= WIDTH && f.height >= HEIGHT
    ensures AllCells(f, HEIGHT) == BlockSum(f, 0, f.width, 0, f.height)
  {
    CutsAscend(f.width, WIDTH);
    CutsAscend(f.height, HEIGHT);
    AllCellsAreBlocks(f, Cuts(f.width, WIDTH), Cuts(f.height, HEIGHT), HEIGHT);
    BlocksAreBlock(f, Cuts(f.width, WIDTH), Cuts(f.height, HEIGHT), HEIGHT);
  }
}
