/**
 * The reference implementations that the multi-display tests compare the
 * module against: the sprite stepper that stamps a clipped sprite into a
 * caller's frame, the master-side split of a frame into the master's own
 * tile plus one addressed message per other screen, and the decoder that
 * reads a packed tile back cell by cell.
 */
module ReferenceLogic {
  import opened Wrappers
  import opened Decimal
  import opened Tiling

  // ---------------------------------------------------------------- sprite

  /**
   * The sprite's next left-edge column: one step right, and once that passes
   * the right edge of the canvas, fully off the left edge again.
   */
  function NextSpriteX(x: int, spriteWidth: nat, totalWidth: nat): int {
    if x + 1 > totalWidth then 0 - spriteWidth else x + 1
  }

  /** The position after k steps. */
  function SpriteXAfter(x: int, spriteWidth: nat, totalWidth: nat, k: nat): int {
    if k == 0 then x else NextSpriteX(SpriteXAfter(x, spriteWidth, totalWidth, k - 1), spriteWidth, totalWidth)
  }

  /** Canvas column `col` is on the canvas and under a sprite whose left edge is at spriteX. */
  predicate Visible(spriteX: int, spriteWidth: nat, totalWidth: nat, col: int) {
    0 <= col < totalWidth && spriteX <= col < spriteX + spriteWidth
  }

  /**
   * Moves the sprite one step and stamps the on-canvas part of it into
   * `buffer`: rows spriteY.. of the buffer receive the sprite's rows, only at
   * visible columns; every other cell keeps its value.
   */
  method Animate(sprite: Grid, spriteWidth: nat, spriteHeight: nat, spriteY: nat,
                 totalWidth: nat, initialX: int, buffer: array2<int>) returns (spriteX: int)
    requires Covers(sprite, spriteHeight, spriteWidth)
    requires spriteY + spriteHeight <= buffer.Length0 && totalWidth <= buffer.Length1
    modifies buffer
    ensures spriteX == NextSpriteX(initialX, spriteWidth, totalWidth)
    ensures forall r, c :: 0 <= r < buffer.Length0 && 0 <= c < buffer.Length1 ==>
      buffer[r, c] == if spriteY <= r < spriteY + spriteHeight && Visible(spriteX, spriteWidth, totalWidth, c)
                      then sprite[r - spriteY][c - spriteX] else old(buffer[r, c])
  {
    spriteX := initialX + 1;
    if spriteX > totalWidth {
      spriteX := 0 - spriteWidth;
    }

    var startCol := 0;
    var endCol := spriteWidth as int;
    if spriteX < 0 {
      startCol := -spriteX;
    }
    if spriteX + spriteWidth > totalWidth {
      endCol := totalWidth - spriteX;
    }
    // the sprite columns startCol..endCol-1 are exactly the visible canvas columns
    assert forall c :: Visible(spriteX, spriteWidth, totalWidth, c) <==> spriteX + startCol <= c < spriteX + endCol;

    for row := 0 to spriteHeight
      invariant forall r, c :: 0 <= r < buffer.Length0 && 0 <= c < buffer.Length1 ==>
        buffer[r, c] == if spriteY <= r < spriteY + row && Visible(spriteX, spriteWidth, totalWidth, c)
                        then sprite[r - spriteY][c - spriteX] else old(buffer[r, c])
    {
      var col := startCol;
      while col < endCol
        invariant startCol <= col && (col <= endCol || col == startCol)
        invariant forall r, c :: 0 <= r < buffer.Length0 && 0 <= c < buffer.Length1 ==>
          buffer[r, c] == if (spriteY <= r < spriteY + row && Visible(spriteX, spriteWidth, totalWidth, c))
                             || (r == spriteY + row && spriteX + startCol <= c < spriteX + col)
                          then sprite[r - spriteY][c - spriteX] else old(buffer[r, c])
      {
        buffer[row + spriteY, col + spriteX] := sprite[row][col];
        col := col + 1;
      }
    }
  }

  /** Starting anywhere from fully off the left edge to just past the right edge, the sprite stays in that range. */
  lemma SpriteStaysInRange(x: int, spriteWidth: nat, totalWidth: nat)
    requires -(spriteWidth as int) <= x <= totalWidth
    ensures -(spriteWidth as int) <= NextSpriteX(x, spriteWidth, totalWidth) <= totalWidth
  {
  }

  /**
   * Where the sprite is after k steps, within one lap: it walks right until
   * column totalWidth, then restarts at -spriteWidth.
   */
  lemma {:induction false} SpriteXAfterLap(x: int, spriteWidth: nat, totalWidth: nat, k: nat)
    requires -(spriteWidth as int) <= x <= totalWidth
    requires k <= totalWidth + spriteWidth + 1
    ensures SpriteXAfter(x, spriteWidth, totalWidth, k) ==
      if k <= totalWidth - x then x + k else x + k - (totalWidth + spriteWidth + 1)
  {
    if k > 0 {
      SpriteXAfterLap(x, spriteWidth, totalWidth, k - 1);
    }
  }

  /** The sprite returns to its start after exactly totalWidth + spriteWidth + 1 steps, and not sooner. */
  lemma SpritePeriod(x: int, spriteWidth: nat, totalWidth: nat, k: nat)
    requires -(spriteWidth as int) <= x <= totalWidth
    requires 0 < k <= totalWidth + spriteWidth + 1
    ensures SpriteXAfter(x, spriteWidth, totalWidth, k) == x <==> k == totalWidth + spriteWidth + 1
  {
    SpriteXAfterLap(x, spriteWidth, totalWidth, k);
  }

  // ---------------------------------------------------------------- master split

  /** Tile `screen` lies inside a frame that holds `screens` tiles. */
  lemma TileInsideFrame(grid: Grid, ds: nat, screen: nat, screens: nat)
    requires screen < screens && Covers(grid, ds, screens * ds)
    ensures Covers(grid, ds, screen * ds + ds)
    ensures Covers(grid, ds, (screen + 1) * ds)
  {
    assert screen * ds + ds == (screen + 1) * ds <= screens * ds;
  }

  /** The messages for screens 1..screens-1, in order. */
  function Messages(grid: Grid, screens: nat, ds: nat): (m: seq<string>)
    requires screens >= 1 ==> Covers(grid, ds, screens * ds)
    ensures |m| == if screens >= 1 then screens - 1 else 0
  {
    if screens <= 1 then []
    else
      TileInsideFrame(grid, ds, screens - 1, screens);
      Messages(grid, screens - 1, ds) + [TileMessage(grid, screens - 1, ds)]
  }

  /** Entry k of Messages is the message of screen k + 1. */
  lemma {:induction false} MessagesAt(grid: Grid, screens: nat, ds: nat, k: nat)
    requires screens >= 1 ==> Covers(grid, ds, screens * ds)
    requires k + 1 < screens
    ensures Covers(grid, ds, (k + 1) * ds + ds)
    ensures Messages(grid, screens, ds)[k] == TileMessage(grid, k + 1, ds)
  {
    TileInsideFrame(grid, ds, k + 1, screens);
    TileInsideFrame(grid, ds, screens - 1, screens);
    if k + 2 < screens {
      MessagesAt(grid, screens - 1, ds, k);
    } else if screens > 2 {
      MessagesAt(grid, screens - 1, ds, 0);
    }
  }

  /**
   * Splits a frame of `screens` tiles: tile 0 becomes the master's own grid,
   * and tiles 1..screens-1 become, in order, messages `str(screen)` + packed tile.
   */
  method MasterBuffer(grid: Grid, screens: nat, ds: nat) returns (master: Grid, messages: seq<string>)
    requires screens >= 1 ==> Covers(grid, ds, screens * ds)
    ensures master == if screens >= 1 then Tile(grid, 0, ds) else Blank(ds, ds)
    ensures messages == Messages(grid, screens, ds)
  {
    master := Blank(ds, ds);
    messages := [];
    for screen := 0 to screens
      invariant screen >= 1 ==> Covers(grid, ds, screen * ds)
      invariant master == if screen >= 1 then Tile(grid, 0, ds) else Blank(ds, ds)
      invariant messages == Messages(grid, screen, ds)
    {
      TileInsideFrame(grid, ds, screen, screens);
      if screen == 0 {
        for row := 0 to ds
          invariant |master| == ds && forall r :: 0 <= r < ds ==> |master[r]| == ds
          invariant forall r, c :: 0 <= r < ds && 0 <= c < ds ==>
            master[r][c] == if r < row then grid[r][c] else 0
        {
          for col := 0 to ds
            invariant |master| == ds && forall r :: 0 <= r < ds ==> |master[r]| == ds
            invariant forall r, c :: 0 <= r < ds && 0 <= c < ds ==>
              master[r][c] == if r < row || (r == row && c < col) then grid[r][c] else 0
          {
            master := master[row := master[row][col := grid[row][col]]];
          }
        }
        SameCells(master, Tile(grid, 0, ds));
      } else {
        var screenData := PackTile(grid, screen * ds, ds);
        messages := messages + [IntToString(screen) + screenData];
      }
    }
  }

  /** The inner loops of the master branch: the tile's cells, row by row, each as its decimal text. */
  method PackTile(grid: Grid, lo: nat, ds: nat) returns (screenData: string)
    requires Covers(grid, ds, lo + ds)
    ensures screenData == PackedTile(grid, lo, ds)
  {
    var hi := lo + ds;
    screenData := "";
    for row := 0 to ds
      invariant screenData == Show(TileRows(grid, row, lo, hi))
    {
      TileRowsStep(grid, row, lo, hi);
      ghost var done := TileRows(grid, row, lo, hi);
      for col := lo to hi
        invariant screenData == Show(done + grid[row][lo..col])
      {
        ShowSliceStep(done, grid[row], lo, col);
        screenData := screenData + IntToString(grid[row][col]);
      }
    }
  }

  // ---------------------------------------------------------------- decoder

  /**
   * Reads a ds x ds tile from its packed text, cell (row, col) from the one
   * character at ds*row + col; None where `int` would raise (the character
   * is missing or is not a digit).
   */
  method Decode(data: string, ds: nat) returns (decoded: Option<Grid>)
    ensures decoded == DecodeTile(data, ds)
  {
    var cells := Blank(ds, ds);
    for row := 0 to ds
      invariant |cells| == ds && forall r :: 0 <= r < ds ==> |cells[r]| == ds
      invariant forall r: nat, c: nat :: r < row && c < ds ==>
        DigitAt(data, ds, r, c) && cells[r][c] == CellValue(data, ds, r, c)
    {
      for col := 0 to ds
        invariant |cells| == ds && forall r :: 0 <= r < ds ==> |cells[r]| == ds
        invariant forall r: nat, c: nat :: (r < row && c < ds) || (r == row && c < col) ==>
          DigitAt(data, ds, r, c) && cells[r][c] == CellValue(data, ds, r, c)
      {
        var rowStart := ds * row;
        if rowStart + col >= |data| || !IsDigit(data[rowStart + col]) {
          assert !DigitAt(data, ds, row, col);
          return None;
        }
        cells := cells[row := cells[row][col := DigitValue(data[rowStart + col])]];
      }
    }
    DecodeTileCells(data, ds);
    SameCells(cells, DecodeTile(data, ds).value);
    return Some(cells);
  }
}
