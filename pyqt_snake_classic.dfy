/**
 * The game state of `main.py`, the fixed-size Python variant: a 16 by 12
 * board, a head started away from the edges, a direction that starts as UP
 * and is never absent, and a key handler that only steers (ticks come from
 * the timer alone). Its `update_game` is `Engine.Tick`.
 */
module PyQtSnakeClassic {
  import opened Grid
  import opened Sampling
  import opened Engine

  class SnakeMainWindow {
    static const GridWidth: int := 16
    static const GridHeight: int := 12

    var fps: int
    var posPlayer: Position
    var dirPlayer: Direction
    var posApple: Position
    var snakeParts: seq<Position>
    var gameOver: bool

    /** The part of the window one tick reads and writes. */
    function State(): (b: Board)
      reads this
    {
      Board(posPlayer, posApple, snakeParts, gameOver)
    }

    ghost predicate Valid()
      reads this
    {
      Consistent(State(), GridWidth, GridHeight)
    }

    /**
     * `__init__`: `start` is the random head cell, drawn with
     * `randrange(1, width - 1)` and `randrange(1, height - 1)`, so never on an
     * edge; `draws` are the apple candidates.
     */
    constructor (start: Position, draws: seq<Position>)
      requires 1 <= start.x < GridWidth - 1 && 1 <= start.y < GridHeight - 1
      requires AllInBounds(draws, GridWidth, GridHeight) && HasMiss(draws, start)
      ensures Valid()
      ensures 1 <= posPlayer.x <= GridWidth - 2 && 1 <= posPlayer.y <= GridHeight - 2
      ensures posPlayer == start && dirPlayer == Up
      ensures posApple == PickApple(draws, start) && posApple != posPlayer
      ensures snakeParts == [] && !gameOver && fps == 5
    {
      posPlayer := start;
      dirPlayer := Up;
      posApple := Position(0, 0);
      snakeParts := [];
      gameOver := false;
      fps := 5;
      new;
      PlaceApple(draws);
      PickAppleInBounds(draws, start, GridWidth, GridHeight);
    }

    /** `place_apple`: draw cells until one differs from the head. */
    method PlaceApple(draws: seq<Position>)
      requires HasMiss(draws, posPlayer)
      modifies this`posApple
      ensures posApple == PickApple(draws, posPlayer)
      ensures posApple != posPlayer && posPlayer == old(posPlayer)
      ensures AllInBounds(draws, GridWidth, GridHeight) ==> InBounds(posApple, GridWidth, GridHeight)
    {
      posApple := posPlayer;
      ghost var k := FirstMiss(draws, posPlayer);
      var i := 0;
      while posApple == posPlayer
        invariant 0 <= i <= k + 1
        invariant i == 0 ==> posApple == posPlayer
        invariant i > 0 ==> posApple == draws[i - 1]
        decreases k + 1 - i
      {
        posApple := draws[i];
        i := i + 1;
      }
      if AllInBounds(draws, GridWidth, GridHeight) {
        PickAppleInBounds(draws, posPlayer, GridWidth, GridHeight);
      }
    }

    /** `update_game`: one tick of the engine in the current direction. */
    method UpdateGame(draws: seq<Position>)
      requires Valid()
      requires AllInBounds(draws, GridWidth, GridHeight)
      requires Eats(State()) ==> HasMiss(draws, posPlayer)
      modifies this
      ensures Valid()
      ensures State() == Tick(old(State()), Some(dirPlayer), GridWidth, GridHeight, draws)
      ensures dirPlayer == old(dirPlayer) && fps == old(fps)
    {
      ghost var after := Tick(State(), Some(dirPlayer), GridWidth, GridHeight, draws);
      if posPlayer in AllButNewest(snakeParts) {
        gameOver := true;
        assert State() == after;
        return;
      }

      if posPlayer == posApple {
        snakeParts := snakeParts + [posPlayer];
        PlaceApple(draws);
      }

      posPlayer := Advance(posPlayer, Some(dirPlayer), GridWidth, GridHeight);

      snakeParts := AllButOldest(snakeParts);
      snakeParts := snakeParts + [posPlayer];
      assert State() == after;
    }

    /**
     * `keyPressEvent`: an arrow key sets the direction unless it asks for the
     * exact reversal; nothing else changes and no tick runs.
     */
    method KeyPress(key: Key)
      modifies this`dirPlayer
      ensures Some(dirPlayer) == Steer(key, false, Some(old(dirPlayer)))
      ensures dirPlayer != Opposite(old(dirPlayer))
    {
      if key == ArrowUp && dirPlayer != Down {
        dirPlayer := Up;
      } else if key == ArrowDown && dirPlayer != Up {
        dirPlayer := Down;
      } else if key == ArrowLeft && dirPlayer != Right {
        dirPlayer := Left;
      } else if key == ArrowRight && dirPlayer != Left {
        dirPlayer := Right;
      }
    }
  }

  /** A first DOWN key, before any other, is a reversal of the initial UP and is refused. */
  method FirstDownIsRefused(start: Position, draws: seq<Position>) returns (w: SnakeMainWindow)
    requires 1 <= start.x < SnakeMainWindow.GridWidth - 1
    requires 1 <= start.y < SnakeMainWindow.GridHeight - 1
    requires AllInBounds(draws, SnakeMainWindow.GridWidth, SnakeMainWindow.GridHeight)
    requires HasMiss(draws, start)
    ensures fresh(w) && w.Valid()
    ensures w.dirPlayer == Up && w.posPlayer == start && w.snakeParts == []
  {
    w := new SnakeMainWindow(start, draws);
    w.KeyPress(ArrowDown);
  }
}
