/**
 * The game state of `SnakeMainWindow.java`: the constructor that fills in
 * the fields, and `placeApple`. Nothing else in this class changes state.
 */
module SwingSnakeWindow {
  import opened Grid
  import opened Sampling
  import opened Awt

  class SnakeMainWindow {
    const gridWidth: int
    const gridHeight: int
    var fps: int
    var posPlayer: Point
    var posApple: Point
    var dirPlayer: Option<Direction>
    var snakeParts: seq<Position>
    var gameOver: bool

    /** The head and the apple are distinct objects on the grid. */
    ghost predicate Valid()
      reads this, posPlayer, posApple
    {
      && gridWidth > 0 && gridHeight > 0
      && posPlayer != posApple
      && InBounds(posPlayer.At(), gridWidth, gridHeight)
      && InBounds(posApple.At(), gridWidth, gridHeight)
    }

    /** The constructor: `start` is the random head cell, `draws` the apple candidates. */
    constructor (width: int, height: int, fps: int, start: Position, draws: seq<Position>)
      requires width > 0 && height > 0
      requires InBounds(start, width, height) && AllInBounds(draws, width, height)
      requires HasMiss(draws, start)
      ensures Valid() && fresh(posPlayer) && fresh(posApple)
      ensures gridWidth == width && gridHeight == height && this.fps == fps
      ensures posPlayer.At() == start && dirPlayer == None
      ensures posApple.At() == PickApple(draws, start)
      ensures snakeParts == [] && !gameOver
    {
      gridWidth, gridHeight := width, height;
      this.fps := fps;
      posPlayer := new Point(start.x, start.y);
      dirPlayer := None;
      posApple := new Point(0, 0);
      snakeParts := [];
      gameOver := false;
      new;
      PlaceApple(draws);
      PickAppleInBounds(draws, start, width, height);
    }

    /**
     * `placeApple`: first alias the apple to the head, then allocate a new
     * point for every draw until one differs from the head in a coordinate.
     */
    method PlaceApple(draws: seq<Position>)
      requires HasMiss(draws, posPlayer.At())
      modifies this`posApple
      ensures fresh(posApple) && posApple != posPlayer
      ensures posApple.x != posPlayer.x || posApple.y != posPlayer.y
      ensures posApple.At() == PickApple(draws, posPlayer.At())
      ensures AllInBounds(draws, gridWidth, gridHeight) ==> InBounds(posApple.At(), gridWidth, gridHeight)
    {
      posApple := posPlayer;
      ghost var k := FirstMiss(draws, posPlayer.At());
      var i := 0;
      while posApple.x == posPlayer.x && posApple.y == posPlayer.y
        invariant 0 <= i <= k + 1
        invariant i == 0 ==> posApple == posPlayer
        invariant i > 0 ==> fresh(posApple) && posApple.At() == draws[i - 1]
        decreases k + 1 - i
      {
        posApple := new Point(draws[i].x, draws[i].y);
        i := i + 1;
      }
    }
  }
}
