/**
 * The game state of `python/main.py`: a window whose fields are the board
 * size, the tick rate, the head, an optional direction, the apple, the trail
 * and the game-over flag, updated in place by `update_game`, `reset_game`,
 * `place_apple` and the key handler. Drawing and timers are not modelled.
 */
module PyQtSnake {
  import opened Grid
  import opened Sampling
  import opened Engine

  /** What `keyPressEvent` does with a key, in the order its branches test. */
  datatype Action = Turn(dir: Direction) | Restart | Faster | Slower | Ignore

  /**
   * The branch of `keyPressEvent` a key takes: arrows and W/A/S/D turn unless
   * they ask for the exact reversal of the current direction (whatever the
   * trail length); a refused reversal falls through to `Ignore`.
   */
  function Dispatch(key: Key, current: Option<Direction>): (a: Action)
    ensures a.Turn? <==> Requested(key, true).Some? && Accepts(Requested(key, true).value, current)
    ensures a.Turn? ==> Requested(key, true) == Some(a.dir) && current != Some(Opposite(a.dir))
    ensures current.Some? && Requested(key, true) == Some(Opposite(current.value)) ==> a == Ignore
    ensures a == Restart <==> key == Refresh
    ensures a == Faster <==> key == Plus
    ensures a == Slower <==> key == Minus
  {
    match Requested(key, true)
    case Some(d) => if Accepts(d, current) then Turn(d) else Ignore
    case None =>
      if key == Refresh then Restart
      else if key == Plus then Faster
      else if key == Minus then Slower
      else Ignore
  }

  /** The start-up check of `main`: a board narrower or lower than 3 cells is refused. */
  function BoardSizeError(width: int, height: int): (e: Option<string>)
    ensures e.None? <==> width >= 3 && height >= 3
    ensures e.Some? ==> e.value == "Minimum board size is 3x3"
  {
    if width < 3 || height < 3 then Some("Minimum board size is 3x3") else None
  }

  class SnakeMainWindow {
    const gridWidth: int
    const gridHeight: int
    var fps: int
    var posPlayer: Position
    var dirPlayer: Option<Direction>
    var posApple: Position
    var snakeParts: seq<Position>
    var gameOver: bool

    /** Apples eaten since the last reset. */
    ghost var eaten: nat

    /** The part of the window one tick reads and writes. */
    function State(): (b: Board)
      reads this
    {
      Board(posPlayer, posApple, snakeParts, gameOver)
    }

    ghost predicate Valid()
      reads this
    {
      && gridWidth > 0 && gridHeight > 0
      && Consistent(State(), gridWidth, gridHeight)
      && (|snakeParts| == 0 ==> posApple != posPlayer && eaten == 0)
      && (|snakeParts| > 0 ==> |snakeParts| == eaten + 1)
    }

    /** `__init__`: `start` is the random head cell, `draws` the apple candidates. */
    constructor (width: int, height: int, fps: int, start: Position, draws: seq<Position>)
      requires width > 0 && height > 0
      requires InBounds(start, width, height) && AllInBounds(draws, width, height)
      requires HasMiss(draws, start)
      ensures Valid()
      ensures gridWidth == width && gridHeight == height && this.fps == fps
      ensures posPlayer == start && dirPlayer == None
      ensures posApple == PickApple(draws, start)
      ensures snakeParts == [] && !gameOver
    {
      gridWidth, gridHeight := width, height;
      this.fps := fps;
      posPlayer := start;
      dirPlayer := None;
      posApple := Position(0, 0);
      snakeParts := [];
      gameOver := false;
      eaten := 0;
      new;
      PlaceApple(draws);
      PickAppleInBounds(draws, start, width, height);
    }

    /** `place_apple`: draw cells until one differs from the head. */
    method PlaceApple(draws: seq<Position>)
      requires HasMiss(draws, posPlayer)
      modifies this`posApple
      ensures posApple == PickApple(draws, posPlayer)
      ensures posApple != posPlayer && posPlayer == old(posPlayer)
      ensures AllInBounds(draws, gridWidth, gridHeight) ==> InBounds(posApple, gridWidth, gridHeight)
    {
      posApple := posPlayer;
      ghost var k := FirstMiss(draws, posPlayer);
      var i := 0;
      while posApple == posPlayer
        invariant 0 <= i <= k + 1
        invariant i == 0 ==> posApple == posPlayer
        invariant i > 0 ==> posApple == draws[i - 1]
        decreases k + 1 - i
      {
        posApple := draws[i];
        i := i + 1;
      }
      if AllInBounds(draws, gridWidth, gridHeight) {
        PickAppleInBounds(draws, posPlayer, gridWidth, gridHeight);
      }
    }

    /** `score`: the number of apples eaten, `max(0, len(snake_parts) - 1)`. */
    function Score(): (s: nat)
      reads this
      requires Valid()
      ensures s == eaten
    {
      Max(0, |snakeParts| - 1)
    }

    /** `update_game`: one tick of the engine in the current direction. */
    method UpdateGame(draws: seq<Position>)
      requires Valid()
      requires AllInBounds(draws, gridWidth, gridHeight)
      requires Eats(State()) ==> HasMiss(draws, posPlayer)
      modifies this
      ensures Valid()
      ensures State() == Tick(old(State()), dirPlayer, gridWidth, gridHeight, draws)
      ensures dirPlayer == old(dirPlayer) && fps == old(fps)
      ensures eaten == old(eaten) + (if Eats(old(State())) then 1 else 0)
    {
      ghost var before := State();
      ghost var after := Tick(before, dirPlayer, gridWidth, gridHeight, draws);
      if posPlayer in AllButNewest(snakeParts) {
        gameOver := true;
        assert State() == after;
        return;
      }

      if posPlayer == posApple {
        snakeParts := snakeParts + [posPlayer];
        eaten := eaten + 1;
        PlaceApple(draws);
      }

      posPlayer := Advance(posPlayer, dirPlayer, gridWidth, gridHeight);

      snakeParts := AllButOldest(snakeParts);
      snakeParts := snakeParts + [posPlayer];
      assert State() == after;
    }

    /** `reset_game`: a fresh game on the same board at the same tick rate. */
    method ResetGame(start: Position, draws: seq<Position>)
      requires gridWidth > 0 && gridHeight > 0
      requires InBounds(start, gridWidth, gridHeight) && AllInBounds(draws, gridWidth, gridHeight)
      requires HasMiss(draws, start)
      modifies this
      ensures Valid()
      ensures !gameOver && snakeParts == []
      ensures posPlayer == start && dirPlayer == None
      ensures posApple == PickApple(draws, start)
      ensures fps == old(fps)
    {
      gameOver := false;
      snakeParts := [];
      eaten := 0;
      posPlayer := start;
      dirPlayer := None;
      PlaceApple(draws);
      PickAppleInBounds(draws, start, gridWidth, gridHeight);
    }

    /**
     * `keyPressEvent`: an accepted direction key sets the direction and runs
     * exactly one tick; Refresh resets; '+' and '-' change the tick rate,
     * which never drops below 1; every other key, and a refused reversal,
     * changes nothing.
     */
    method KeyPress(key: Key, start: Position, draws: seq<Position>)
      requires Valid()
      requires AllInBounds(draws, gridWidth, gridHeight)
      requires Dispatch(key, dirPlayer).Turn? && Eats(State()) ==> HasMiss(draws, posPlayer)
      requires Dispatch(key, dirPlayer) == Restart ==>
                 InBounds(start, gridWidth, gridHeight) && HasMiss(draws, start)
      modifies this
      ensures Valid()
      ensures Dispatch(key, old(dirPlayer)).Turn? ==>
                && dirPlayer == Some(Dispatch(key, old(dirPlayer)).dir)
                && State() == Tick(old(State()), dirPlayer, gridWidth, gridHeight, draws)
                && fps == old(fps)
      ensures Dispatch(key, old(dirPlayer)) == Restart ==>
                && !gameOver && snakeParts == []
                && posPlayer == start && dirPlayer == None
                && posApple == PickApple(draws, start)
                && fps == old(fps)
      ensures Dispatch(key, old(dirPlayer)) == Faster ==>
                fps == old(fps) + 1 && State() == old(State()) && dirPlayer == old(dirPlayer)
      ensures Dispatch(key, old(dirPlayer)) == Slower ==>
                fps == Max(1, old(fps) - 1) && State() == old(State()) && dirPlayer == old(dirPlayer)
      ensures Dispatch(key, old(dirPlayer)) == Ignore ==>
                fps == old(fps) && State() == old(State()) && dirPlayer == old(dirPlayer)
    {
      if (key == ArrowUp || key == LetterW) && dirPlayer != Some(Down) {
        dirPlayer := Some(Up);
        UpdateGame(draws);
      } else if (key == ArrowDown || key == LetterS) && dirPlayer != Some(Up) {
        dirPlayer := Some(Down);
        UpdateGame(draws);
      } else if (key == ArrowLeft || key == LetterA) && dirPlayer != Some(Right) {
        dirPlayer := Some(Left);
        UpdateGame(draws);
      } else if (key == ArrowRight || key == LetterD) && dirPlayer != Some(Left) {
        dirPlayer := Some(Right);
        UpdateGame(draws);
      } else if key == Refresh {
        ResetGame(start, draws);
      } else if key == Plus {
        fps := fps + 1;
      } else if key == Minus {
        fps := Max(1, fps - 1);
      }
    }
  }

  /**
   * `main`: refuse a board under 3 by 3, otherwise open the window. `start`
   * and `draws` stand for the random head cell and apple candidates.
   */
  method Launch(width: int, height: int, fps: int, start: Position, draws: seq<Position>)
    returns (r: Result<SnakeMainWindow, string>)
    requires width >= 3 && height >= 3 ==>
               InBounds(start, width, height) && AllInBounds(draws, width, height)
               && HasMiss(draws, start)
    ensures r.Failure? <==> BoardSizeError(width, height).Some?
    ensures r.Failure? ==> r.error == "Minimum board size is 3x3"
    ensures r.Success? ==>
              && fresh(r.value) && r.value.Valid()
              && r.value.gridWidth == width && r.value.gridHeight == height
              && r.value.fps == fps && r.value.posPlayer == start
  {
    var e := BoardSizeError(width, height);
    if e.Some? {
      return Failure(e.value);
    }
    var window := new SnakeMainWindow(width, height, fps, start, draws);
    return Success(window);
  }
}
