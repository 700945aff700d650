/**
 * One micro:bit of the multi-display animation.  The master keeps a frame
 * 5 rows high and 5 columns per screen wide, bounces a ball along its middle
 * row, and each tick clears the frame, moves and draws the ball, copies the
 * leftmost 5x5 tile into its own display buffer and packs every other tile
 * into a 25-digit string for the screen that shows it.
 */
module MultiDisplay {
  import opened Wrappers
  import opened Decimal
  import opened Tiling
  import ReferenceLogic

  /** Rows of the frame and of every display. */
  const ROWS: nat := 5
  /** Side of one micro:bit display. */
  const DISPLAY_SIZE: nat := 5
  /** The row the ball runs along. */
  const BALL_ROW: nat := 2
  /** The brightness the ball is drawn with. */
  const BALL: int := 9

  // ---------------------------------------------------------------- the ball

  /** The ball is on the frame and moving one column left or right. */
  predicate BallInvariant(x: int, direction: int, maxCols: int) {
    0 <= x < maxCols && (direction == -1 || direction == 1)
  }

  /** The direction after the edge checks: right at the left edge, left at the right edge. */
  function NextDirection(x: int, direction: int, maxCols: int): int {
    if x == maxCols - 1 then -1 else if x == 0 then 1 else direction
  }

  /** The column the ball moves to. */
  function NextBallX(x: int, direction: int, maxCols: int): int {
    x + NextDirection(x, direction, maxCols)
  }

  /** One move keeps the ball on the frame, moves it by exactly one column and turns it only at an edge. */
  lemma BallStep(x: int, direction: int, maxCols: int)
    requires maxCols >= 2 && BallInvariant(x, direction, maxCols)
    ensures BallInvariant(NextBallX(x, direction, maxCols), NextDirection(x, direction, maxCols), maxCols)
    ensures NextBallX(x, direction, maxCols) - x == NextDirection(x, direction, maxCols)
    ensures x == 0 ==> NextDirection(x, direction, maxCols) == 1
    ensures x == maxCols - 1 ==> NextDirection(x, direction, maxCols) == -1
    ensures 0 < x < maxCols - 1 ==> NextDirection(x, direction, maxCols) == direction
  {
  }

  /** The ball's column and direction after k ticks. */
  function BallAfter(x: int, direction: int, maxCols: int, k: nat): (int, int) {
    if k == 0 then (x, direction)
    else
      var (x', direction') := BallAfter(x, direction, maxCols, k - 1);
      (NextBallX(x', direction', maxCols), NextDirection(x', direction', maxCols))
  }

  /** However many ticks pass, the ball stays on the frame. */
  lemma {:induction false} BallStaysOnFrame(x: int, direction: int, maxCols: int, k: nat)
    requires maxCols >= 2 && BallInvariant(x, direction, maxCols)
    ensures BallInvariant(BallAfter(x, direction, maxCols, k).0, BallAfter(x, direction, maxCols, k).1, maxCols)
  {
    if k > 0 {
      BallStaysOnFrame(x, direction, maxCols, k - 1);
      var (x', direction') := BallAfter(x, direction, maxCols, k - 1);
      BallStep(x', direction', maxCols);
    }
  }

  // ---------------------------------------------------------------- buffers

  /** A fresh frame: ROWS rows of maxCols zeros. */
  method CreateAnimationBuffer(maxCols: nat) returns (buffer: array2<int>)
    ensures fresh(buffer)
    ensures buffer.Length0 == ROWS && buffer.Length1 == maxCols
    ensures forall r, c :: 0 <= r < ROWS && 0 <= c < maxCols ==> buffer[r, c] == 0
  {
    buffer := new int[ROWS, maxCols]((r, c) => 0);
  }

  /**
   * The state of one micro:bit: its frame (the animation buffer), its own
   * 5x5 display buffer and the ball.
   */
  class Node {
    const numberOfScreens: nat
    const maxCols: nat
    const isMaster: bool
    const animationBuffer: array2<int>
    const localBuffer: array2<int>
    var ballX: int
    var ballDirection: int

    ghost predicate Valid()
      reads this
    {
      && numberOfScreens >= 1
      && maxCols == DISPLAY_SIZE * numberOfScreens
      && animationBuffer.Length0 == ROWS && animationBuffer.Length1 == maxCols
      && localBuffer.Length0 == DISPLAY_SIZE && localBuffer.Length1 == DISPLAY_SIZE
      && animationBuffer != localBuffer
      && BallInvariant(ballX, ballDirection, maxCols)
    }

    /** The frame's cells as rows of values. */
    ghost function Frame(): (g: Grid)
      reads animationBuffer
      ensures |g| == animationBuffer.Length0
      ensures forall r :: 0 <= r < |g| ==> |g[r]| == animationBuffer.Length1
      ensures forall r, c :: 0 <= r < animationBuffer.Length0 && 0 <= c < animationBuffer.Length1 ==>
        g[r][c] == animationBuffer[r, c]
    {
      seq(animationBuffer.Length0, r requires 0 <= r < animationBuffer.Length0 reads animationBuffer =>
        seq(animationBuffer.Length1, c requires 0 <= c < animationBuffer.Length1 reads animationBuffer =>
          animationBuffer[r, c]))
    }

    /** Start-up: an all-zero frame 5 columns per screen wide, a dark display and the ball at column 2 moving left. */
    constructor (numberOfScreens: nat, isMaster: bool)
      requires numberOfScreens >= 1
      ensures Valid()
      ensures this.numberOfScreens == numberOfScreens && this.isMaster == isMaster
      ensures fresh(animationBuffer) && fresh(localBuffer)
      ensures forall r, c :: 0 <= r < ROWS && 0 <= c < maxCols ==> animationBuffer[r, c] == 0
      ensures forall r, c :: 0 <= r < DISPLAY_SIZE && 0 <= c < DISPLAY_SIZE ==> localBuffer[r, c] == 0
      ensures ballX == 2 && ballDirection == -1
    {
      this.numberOfScreens := numberOfScreens;
      this.isMaster := isMaster;
      maxCols := DISPLAY_SIZE * numberOfScreens;
      localBuffer := new int[DISPLAY_SIZE, DISPLAY_SIZE]((r, c) => 0);
      ballX := 2;
      ballDirection := -1;
      var frame := CreateAnimationBuffer(DISPLAY_SIZE * numberOfScreens);
      animationBuffer := frame;
    }

    /** Clears every cell of the frame. */
    method ResetBuffer()
      requires Valid()
      modifies animationBuffer
      ensures Valid()
      ensures Frame() == Blank(ROWS, maxCols)
    {
      for row := 0 to ROWS
        invariant forall r, c :: 0 <= r < ROWS && 0 <= c < maxCols ==>
          animationBuffer[r, c] == if r < row then 0 else old(animationBuffer[r, c])
      {
        for col := 0 to animationBuffer.Length1
          invariant forall r, c :: 0 <= r < ROWS && 0 <= c < maxCols ==>
            animationBuffer[r, c] == if r < row || (r == row && c < col) then 0 else old(animationBuffer[r, c])
        {
          animationBuffer[row, col] := 0;
        }
      }
      SameCells(Frame(), Blank(ROWS, maxCols));
    }

    /** Turns the ball at an edge, moves it one column and draws it; no other cell changes. */
    method Animate()
      requires Valid()
      modifies this, animationBuffer
      ensures Valid()
      ensures ballDirection == NextDirection(old(ballX), old(ballDirection), maxCols)
      ensures ballX == NextBallX(old(ballX), old(ballDirection), maxCols)
      ensures forall r, c :: 0 <= r < ROWS && 0 <= c < maxCols ==>
        animationBuffer[r, c] == if r == BALL_ROW && c == ballX then BALL else old(animationBuffer[r, c])
    {
      BallStep(ballX, ballDirection, maxCols);
      if ballX == 0 {
        ballDirection := 1;
      }
      if ballX == maxCols - 1 {
        ballDirection := -1;
      }
      ballX := ballX + ballDirection;
      animationBuffer[BALL_ROW, ballX] := BALL;
    }

    /** Packs the tile whose left column is lo: its 25 cells, row by row, each as its decimal text. */
    method PackScreen(lo: nat) returns (screenData: string)
      requires Valid() && lo + DISPLAY_SIZE <= maxCols
      ensures screenData == PackedTile(Frame(), lo, DISPLAY_SIZE)
    {
      ghost var frame := Frame();
      var hi := lo + DISPLAY_SIZE;
      screenData := "";
      for row := 0 to DISPLAY_SIZE
        invariant screenData == Show(TileRows(frame, row, lo, hi))
      {
        TileRowsStep(frame, row, lo, hi);
        ghost var done := TileRows(frame, row, lo, hi);
        for col := lo to hi
          invariant screenData == Show(done + frame[row][lo..col])
        {
          ShowSliceStep(done, frame[row], lo, col);
          screenData := screenData + IntToString(animationBuffer[row, col]);
        }
      }
    }

    /**
     * Copies tile 0 of the frame into the display buffer and packs tiles
     * 1..numberOfScreens-1; the packed strings are returned in screen order.
     */
    method Distribute() returns (packed: seq<string>)
      requires Valid()
      modifies localBuffer
      ensures Valid()
      ensures forall r, c :: 0 <= r < DISPLAY_SIZE && 0 <= c < DISPLAY_SIZE ==> localBuffer[r, c] == animationBuffer[r, c]
      ensures |packed| == numberOfScreens - 1
      ensures forall k :: 0 <= k < |packed| ==> packed[k] == PackedTile(Frame(), DISPLAY_SIZE * (k + 1), DISPLAY_SIZE)
    {
      packed := [];
      for screen := 0 to numberOfScreens
        invariant |packed| == if screen == 0 then 0 else screen - 1
        invariant forall k :: 0 <= k < |packed| ==> packed[k] == PackedTile(Frame(), DISPLAY_SIZE * (k + 1), DISPLAY_SIZE)
        invariant screen >= 1 ==> forall r, c :: 0 <= r < DISPLAY_SIZE && 0 <= c < DISPLAY_SIZE ==>
          localBuffer[r, c] == animationBuffer[r, c]
      {
        if screen == 0 {
          for row := 0 to DISPLAY_SIZE
            invariant forall r, c :: 0 <= r < row && 0 <= c < DISPLAY_SIZE ==> localBuffer[r, c] == animationBuffer[r, c]
          {
            for col := 0 to DISPLAY_SIZE
              invariant forall r, c :: 0 <= r < DISPLAY_SIZE && 0 <= c < DISPLAY_SIZE && (r < row || (r == row && c < col)) ==>
                localBuffer[r, c] == animationBuffer[r, c]
            {
              localBuffer[row, col] := animationBuffer[row, col];
            }
          }
        } else {
          var screenData := PackScreen(screen * DISPLAY_SIZE);
          packed := packed + [screenData];
        }
      }
    }

    /**
     * One pass of the main loop on the master (the render, the sleep and the
     * radio are outside the model): the frame is cleared, the ball moved and
     * drawn, tile 0 copied to the display and the other tiles packed.  The
     * ball is then the only lit cell of the frame, the display shows it
     * exactly when it is in the first five columns, and every packed string
     * is 25 digits that decode back to its tile.  A node that is not the
     * master changes nothing.
     */
    method MainLoopStep() returns (packed: seq<string>)
      requires Valid()
      modifies this, animationBuffer, localBuffer
      ensures Valid()
      ensures !isMaster ==> packed == [] && unchanged(this, animationBuffer, localBuffer)
      ensures isMaster ==> ballDirection == NextDirection(old(ballX), old(ballDirection), maxCols)
      ensures isMaster ==> ballX == NextBallX(old(ballX), old(ballDirection), maxCols)
      ensures isMaster ==> forall r, c :: 0 <= r < ROWS && 0 <= c < maxCols ==>
        animationBuffer[r, c] == if r == BALL_ROW && c == ballX then BALL else 0
      ensures isMaster ==> forall r, c :: 0 <= r < DISPLAY_SIZE && 0 <= c < DISPLAY_SIZE ==>
        localBuffer[r, c] == if r == BALL_ROW && c == ballX then BALL else 0
      ensures isMaster ==> ((exists c :: 0 <= c < DISPLAY_SIZE && localBuffer[BALL_ROW, c] == BALL) <==> ballX < DISPLAY_SIZE)
      ensures isMaster ==> |packed| == numberOfScreens - 1
      ensures isMaster ==> forall k :: 0 <= k < |packed| ==>
        |packed[k]| == DISPLAY_SIZE * DISPLAY_SIZE &&
        DecodeTile(packed[k], DISPLAY_SIZE) == Some(Tile(Frame(), DISPLAY_SIZE * (k + 1), DISPLAY_SIZE))
    {
      packed := [];
      if isMaster {
        ResetBuffer();
        Animate();
        packed := Distribute();
        if ballX < DISPLAY_SIZE {
          assert localBuffer[BALL_ROW, ballX] == BALL;
        }
        forall k | 0 <= k < |packed|
          ensures |packed[k]| == DISPLAY_SIZE * DISPLAY_SIZE &&
            DecodeTile(packed[k], DISPLAY_SIZE) == Some(Tile(Frame(), DISPLAY_SIZE * (k + 1), DISPLAY_SIZE))
        {
          FrameTileDigits(DISPLAY_SIZE * (k + 1));
          PackedTileLayout(Frame(), DISPLAY_SIZE * (k + 1), DISPLAY_SIZE);
          PackedTileRoundTrip(Frame(), DISPLAY_SIZE * (k + 1), DISPLAY_SIZE);
        }
      }
    }

    /** Every tile of a frame whose cells are all 0 or the ball holds digits only. */
    lemma FrameTileDigits(lo: nat)
      requires Valid() && lo + DISPLAY_SIZE <= maxCols
      requires forall r, c :: 0 <= r < ROWS && 0 <= c < maxCols ==> animationBuffer[r, c] == 0 || animationBuffer[r, c] == BALL
      ensures DigitCells(Tile(Frame(), lo, DISPLAY_SIZE))
    {
    }
  }

  /**
   * The node and the reference split agree: the string the node packs for
   * screen k + 1 is the reference message for that screen without its
   * leading screen number.
   */
  lemma DistributeMatchesReference(frame: Grid, screens: nat, k: nat)
    requires screens >= 1 && Covers(frame, DISPLAY_SIZE, DISPLAY_SIZE * screens)
    requires k + 1 < screens
    ensures Covers(frame, DISPLAY_SIZE, DISPLAY_SIZE * (k + 1) + DISPLAY_SIZE)
    ensures ReferenceLogic.Messages(frame, screens, DISPLAY_SIZE)[k] ==
      IntToString(k + 1) + PackedTile(frame, DISPLAY_SIZE * (k + 1), DISPLAY_SIZE)
  {
    ReferenceLogic.MessagesAt(frame, screens, DISPLAY_SIZE, k);
  }
}
