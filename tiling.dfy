/**
 * The tiling of one wide frame into square per-screen tiles, the text a tile
 * is packed into (every cell written with `str`, rows in order, columns left
 * to right) and the decoding of that text back into a tile. Both the
 * multi-display module and the reference helpers of its tests build these
 * strings with their own loops; the functions here say what those loops produce.
 */
module Tiling {
  import opened Wrappers
  import opened Decimal

  /** A frame or a tile: a list of rows of cell intensities. */
  type Grid = seq<seq<int>>

  /** The first `rows` rows exist and each has at least `width` cells. */
  predicate Covers(grid: Grid, rows: nat, width: nat) {
    |grid| >= rows && forall r :: 0 <= r < rows ==> |grid[r]| >= width
  }

  /** `rows` rows of `cols` zeros, as `[[0] * cols for _ in range(rows)]` builds them. */
  function Blank(rows: nat, cols: nat): (g: Grid)
    ensures |g| == rows
    ensures forall r :: 0 <= r < rows ==> |g[r]| == cols
    ensures forall r, c :: 0 <= r < rows && 0 <= c < cols ==> g[r][c] == 0
  {
    seq(rows, _ => seq(cols, _ => 0))
  }

  /** Two grids with the same shape and the same cells are equal. */
  lemma SameCells(a: Grid, b: Grid)
    requires |a| == |b|
    requires forall r :: 0 <= r < |a| ==> |a[r]| == |b[r]|
    requires forall r, c :: 0 <= r < |a| && 0 <= c < |a[r]| ==> a[r][c] == b[r][c]
    ensures a == b
  {
    forall r | 0 <= r < |a|
      ensures a[r] == b[r]
    {
      assert forall c :: 0 <= c < |a[r]| ==> a[r][c] == b[r][c];
    }
  }

  /** Every cell is a single decimal digit, 0..9. */
  predicate DigitCells(g: Grid) {
    forall r, c :: 0 <= r < |g| && 0 <= c < |g[r]| ==> 0 <= g[r][c] <= 9
  }

  /** The `ds` x `ds` tile whose leftmost column is `lo`. */
  function Tile(grid: Grid, lo: nat, ds: nat): (t: Grid)
    requires Covers(grid, ds, lo + ds)
    ensures |t| == ds
    ensures forall r :: 0 <= r < ds ==> |t[r]| == ds
    ensures forall r, c :: 0 <= r < ds && 0 <= c < ds ==> t[r][c] == grid[r][lo + c]
  {
    seq(ds, r requires 0 <= r < ds => grid[r][lo..lo + ds])
  }

  /** The cells of rows 0..rows-1 between columns lo (inclusive) and hi (exclusive), row after row. */
  function TileRows(grid: Grid, rows: nat, lo: nat, hi: nat): (cells: seq<int>)
    requires lo <= hi && Covers(grid, rows, hi)
    ensures |cells| == rows * (hi - lo)
  {
    if rows == 0 then []
    else
      var prefix := TileRows(grid, rows - 1, lo, hi);
      assert |prefix| + (hi - lo) == rows * (hi - lo) by {
        assert (rows - 1) * (hi - lo) + (hi - lo) == rows * (hi - lo);
      }
      prefix + grid[rows - 1][lo..hi]
  }

  /** The concatenation of `str(c)` for every cell c, in order: what `screen_data += str(cell)` accumulates. */
  function Show(cells: seq<int>): string {
    if cells == [] then "" else Show(cells[..|cells| - 1]) + IntToString(cells[|cells| - 1])
  }

  /** The packed text of the ds x ds tile whose leftmost column is lo. */
  function PackedTile(grid: Grid, lo: nat, ds: nat): string
    requires Covers(grid, ds, lo + ds)
  {
    Show(TileRows(grid, ds, lo, lo + ds))
  }

  /** The message for tile `screen`: `str(screen)` followed by the packed tile. */
  function TileMessage(grid: Grid, screen: nat, ds: nat): string
    requires Covers(grid, ds, screen * ds + ds)
  {
    IntToString(screen) + PackedTile(grid, screen * ds, ds)
  }

  /** Character `ds*r + c` of the text exists and is a digit (the slice `int` reads for cell (r, c)). */
  predicate DigitAt(data: string, ds: nat, r: nat, c: nat) {
    ds * r + c < |data| && IsDigit(data[ds * r + c])
  }

  function CellValue(data: string, ds: nat, r: nat, c: nat): (v: int)
    requires DigitAt(data, ds, r, c)
    ensures 0 <= v <= 9
  {
    DigitValue(data[ds * r + c])
  }

  /** Every one of the ds*ds cells of a tile can be read from the text. */
  predicate WellFormed(data: string, ds: nat) {
    forall r: nat, c: nat :: r < ds && c < ds ==> DigitAt(data, ds, r, c)
  }

  /**
   * The tile a text decodes to, reading cell (r, c) from character ds*r + c;
   * None when some cell's character is missing or is not a digit.
   */
  function DecodeTile(data: string, ds: nat): (t: Option<Grid>)
  {
    if WellFormed(data, ds) then
      Some(seq(ds, (r: int) requires 0 <= r < ds =>
             seq(ds, (c: int) requires 0 <= c < ds => CellValue(data, ds, r, c))))
    else None
  }

  /** The cell-by-cell reading of DecodeTile. */
  lemma DecodeTileCells(data: string, ds: nat)
    ensures DecodeTile(data, ds).Some? <==> WellFormed(data, ds)
    ensures DecodeTile(data, ds).Some? ==>
      var t := DecodeTile(data, ds).value;
      && |t| == ds
      && (forall r: nat :: r < ds ==> |t[r]| == ds)
      && (forall r: nat, c: nat :: r < ds && c < ds ==> t[r][c] == CellValue(data, ds, r, c))
  {
  }

  /** A text too short to hold every cell does not decode: the last cell's character is missing. */
  lemma DecodeShortFails(data: string, ds: nat)
    requires ds > 0 && |data| < ds * ds
    ensures DecodeTile(data, ds) == None
  {
    assert ds * (ds - 1) + (ds - 1) == ds * ds - 1;
    assert !DigitAt(data, ds, ds - 1, ds - 1);
  }

  /** Characters after the first ds*ds are never read. */
  lemma DecodeIgnoresTrailing(data: string, extra: string, ds: nat)
    requires |data| >= ds * ds
    ensures DecodeTile(data + extra, ds) == DecodeTile(data, ds)
  {
    forall r: nat, c: nat | r < ds && c < ds
      ensures DigitAt(data + extra, ds, r, c) == DigitAt(data, ds, r, c) &&
        (DigitAt(data, ds, r, c) ==> CellValue(data + extra, ds, r, c) == CellValue(data, ds, r, c))
    {
      RowMajorBound(ds, r, c);
    }
    if WellFormed(data, ds) {
      DecodeTileCells(data + extra, ds);
      DecodeTileCells(data, ds);
      SameCells(DecodeTile(data + extra, ds).value, DecodeTile(data, ds).value);
    }
  }

  /** Cell (r, c) of a tile sits at position r*width + c of its row-major listing. */
  lemma {:induction false} TileRowsAt(grid: Grid, rows: nat, lo: nat, hi: nat, r: nat, c: nat)
    requires lo <= hi && Covers(grid, rows, hi)
    requires r < rows && c < hi - lo
    ensures r * (hi - lo) + c < rows * (hi - lo)
    ensures TileRows(grid, rows, lo, hi)[r * (hi - lo) + c] == grid[r][lo + c]
  {
    var prefix := TileRows(grid, rows - 1, lo, hi);
    assert TileRows(grid, rows, lo, hi) == prefix + grid[rows - 1][lo..hi];
    if r < rows - 1 {
      TileRowsAt(grid, rows - 1, lo, hi, r, c);
    } else {
      assert r * (hi - lo) == |prefix|;
    }
  }

  /** A prefix step of Show: one more cell adds that cell's text at the end. */
  lemma ShowAppend(cells: seq<int>, x: int)
    ensures Show(cells + [x]) == Show(cells) + IntToString(x)
  {
    assert (cells + [x])[..|cells|] == cells;
  }

  /** Every listed cell is a single decimal digit. */
  predicate AllDigits(cells: seq<int>) {
    forall i :: 0 <= i < |cells| ==> 0 <= cells[i] <= 9
  }

  /** The packing loops' step: one more column of the current row appends that cell's text. */
  lemma ShowSliceStep(done: seq<int>, line: seq<int>, lo: nat, col: nat)
    requires lo <= col < |line|
    ensures Show(done + line[lo..col + 1]) == Show(done + line[lo..col]) + IntToString(line[col])
  {
    assert done + line[lo..col + 1] == (done + line[lo..col]) + [line[col]];
    ShowAppend(done + line[lo..col], line[col]);
  }

  /** The packing loops' row step: a finished row extends the row-major listing. */
  lemma TileRowsStep(grid: Grid, row: nat, lo: nat, hi: nat)
    requires lo <= hi && Covers(grid, row + 1, hi)
    ensures TileRows(grid, row, lo, hi) + grid[row][lo..lo] == TileRows(grid, row, lo, hi)
    ensures TileRows(grid, row + 1, lo, hi) == TileRows(grid, row, lo, hi) + grid[row][lo..hi]
  {
    assert grid[row][lo..lo] == [];
  }

  /** With single-digit cells the packed text has one character per cell, each the digit of its cell. */
  lemma {:induction false} ShowDigits(cells: seq<int>)
    requires AllDigits(cells)
    ensures |Show(cells)| == |cells|
    ensures forall i :: 0 <= i < |cells| ==> Show(cells)[i] == DigitChar(cells[i])
  {
    if cells != [] {
      var init := cells[..|cells| - 1];
      ShowDigits(init);
      IntToStringShape(cells[|cells| - 1]);
      assert Show(cells) == Show(init) + [DigitChar(cells[|cells| - 1])];
    }
  }

  /** ds*r + c addresses a cell inside a ds x ds tile. */
  lemma RowMajorBound(ds: nat, r: nat, c: nat)
    requires r < ds && c < ds
    ensures ds * r + c < ds * ds
  {
    assert ds * r + c < ds * r + ds == ds * (r + 1);
    assert ds * (r + 1) <= ds * ds;
  }

  /** Every cell listed from the first `rows` rows of a digit tile is a digit. */
  lemma {:induction false} TileRowsDigits(grid: Grid, rows: nat, lo: nat, hi: nat)
    requires lo <= hi && rows <= hi - lo && Covers(grid, hi - lo, hi)
    requires DigitCells(Tile(grid, lo, hi - lo))
    ensures AllDigits(TileRows(grid, rows, lo, hi))
  {
    if rows > 0 {
      TileRowsDigits(grid, rows - 1, lo, hi);
      var t := Tile(grid, lo, hi - lo);
      var row := grid[rows - 1][lo..hi];
      assert forall j :: 0 <= j < hi - lo ==> row[j] == t[rows - 1][j];
    }
  }

  /** One cell of ShowTileLayout. */
  lemma ShowTileCell(grid: Grid, lo: nat, ds: nat, r: nat, c: nat)
    requires Covers(grid, ds, lo + ds)
    requires AllDigits(TileRows(grid, ds, lo, lo + ds))
    requires r < ds && c < ds
    ensures DigitAt(Show(TileRows(grid, ds, lo, lo + ds)), ds, r, c)
    ensures CellValue(Show(TileRows(grid, ds, lo, lo + ds)), ds, r, c) == grid[r][lo + c]
  {
    var cells := TileRows(grid, ds, lo, lo + ds);
    ShowDigits(cells);
    RowMajorBound(ds, r, c);
    TileRowsAt(grid, ds, lo, lo + ds, r, c);
    var i := ds * r + c;
    assert i == r * ((lo + ds) - lo) + c;
    assert cells[i] == grid[r][lo + c];
    DigitRoundTrip(cells[i]);
  }

  /**
   * The packed text of a tile whose cells are digits has ds*ds characters and
   * lists the tile row by row: the decoder finds cell (r, c) of the tile as
   * the digit at position ds*r + c.
   */
  lemma PackedTileLayout(grid: Grid, lo: nat, ds: nat)
    requires Covers(grid, ds, lo + ds)
    requires DigitCells(Tile(grid, lo, ds))
    ensures |PackedTile(grid, lo, ds)| == ds * ds
    ensures forall r: nat, c: nat :: r < ds && c < ds ==>
      DigitAt(PackedTile(grid, lo, ds), ds, r, c) &&
      CellValue(PackedTile(grid, lo, ds), ds, r, c) == Tile(grid, lo, ds)[r][c]
  {
    var data := PackedTile(grid, lo, ds);
    var t := Tile(grid, lo, ds);
    TileRowsDigits(grid, ds, lo, lo + ds);
    ShowDigits(TileRows(grid, ds, lo, lo + ds));
    forall r: nat, c: nat | r < ds && c < ds
      ensures DigitAt(data, ds, r, c) && CellValue(data, ds, r, c) == t[r][c]
    {
      ShowTileCell(grid, lo, ds, r, c);
      assert t[r][c] == grid[r][lo + c];
    }
  }

  /** Round trip: decoding the packed text of a digit tile gives back exactly that tile. */
  lemma PackedTileRoundTrip(grid: Grid, lo: nat, ds: nat)
    requires Covers(grid, ds, lo + ds)
    requires DigitCells(Tile(grid, lo, ds))
    ensures DecodeTile(PackedTile(grid, lo, ds), ds) == Some(Tile(grid, lo, ds))
  {
    var data := PackedTile(grid, lo, ds);
    var t := Tile(grid, lo, ds);
    PackedTileLayout(grid, lo, ds);
    assert WellFormed(data, ds);
    var d := DecodeTile(data, ds).value;
    DecodeTileCells(data, ds);
    SameCells(d, t);
  }

  /**
   * The receiving side of a tile message: it starts with `str(screen)`, and
   * with that prefix stripped the rest decodes to tile `screen` of the frame.
   */
  lemma TileMessageRoundTrip(grid: Grid, screen: nat, ds: nat)
    requires Covers(grid, ds, screen * ds + ds)
    requires DigitCells(Tile(grid, screen * ds, ds))
    ensures TileMessage(grid, screen, ds)[..|IntToString(screen)|] == IntToString(screen)
    ensures DecodeTile(TileMessage(grid, screen, ds)[|IntToString(screen)|..], ds)
            == Some(Tile(grid, screen * ds, ds))
  {
    var msg := TileMessage(grid, screen, ds);
    assert msg[|IntToString(screen)|..] == PackedTile(grid, screen * ds, ds);
    PackedTileRoundTrip(grid, screen * ds, ds);
  }
}
