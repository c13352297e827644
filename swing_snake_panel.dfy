/**
 * The game state of `SnakePanel.java`: the head and the apple are `Point`
 * objects, the head is moved by changing its fields in place, and every key
 * press steers and then runs one tick of movement. This variant has no
 * eating, growth or collision: `snakeParts` and `gameOver` are never changed.
 * The enum used here has no NONE value, so "no direction yet" is `None`.
 */
module SwingSnakePanel {
  import opened Grid
  import opened Sampling
  import opened Awt

  /**
   * Java's `%`: the remainder of division truncated toward zero, which takes
   * the sign of the dividend.
   */
  function JavaRem(a: int, n: int): (r: int)
    requires n > 0
    ensures a >= 0 ==> 0 <= r < n
    ensures a < 0 ==> -n < r <= 0
    ensures (a - r) % n == 0
  {
    if a >= 0 then
      ModUnique(a - a % n, a / n, 0, n);
      a % n
    else
      ModUnique(a + (-a) % n, -((-a) / n), 0, n);
      -((-a) % n)
  }

  /** The movement of `updateGame`: `(p - 1 + size) % size` and `(p + 1 + size) % size`. */
  function JavaAdvance(p: Position, dir: Option<Direction>, width: int, height: int): (q: Position)
    requires width > 0 && height > 0
    ensures dir.None? ==> q == p
    ensures dir == Some(Up) || dir == Some(Down) ==> q.x == p.x
    ensures dir == Some(Left) || dir == Some(Right) ==> q.y == p.y
    ensures InBounds(p, width, height) && dir == Some(Up) && p.y == 0 ==> q.y == height - 1
    ensures InBounds(p, width, height) && dir == Some(Left) && p.x == 0 ==> q.x == width - 1
  {
    match dir
    case None => p
    case Some(Up) => Position(p.x, JavaRem(p.y - 1 + height, height))
    case Some(Down) => Position(p.x, JavaRem(p.y + 1 + height, height))
    case Some(Left) => Position(JavaRem(p.x - 1 + width, width), p.y)
    case Some(Right) => Position(JavaRem(p.x + 1 + width, width), p.y)
  }

  /** Adding the modulus first makes the truncating remainder the floor one, for `a >= -n`. */
  lemma JavaShift(a: int, n: int)
    requires n > 0 && a + n >= 0
    ensures JavaRem(a + n, n) == a % n
  {
    ModAdd(a, n, n);
    ModUnique(a % n + n, 1, a % n, n);
  }

  /** On the grid the Java movement is the Python one, so it keeps the head on the grid. */
  lemma JavaAdvanceAgrees(p: Position, dir: Option<Direction>, width: int, height: int)
    requires width > 0 && height > 0 && InBounds(p, width, height)
    ensures JavaAdvance(p, dir, width, height) == Advance(p, dir, width, height)
    ensures InBounds(JavaAdvance(p, dir, width, height), width, height)
  {
    match dir
    case None =>
    case Some(Up) => JavaShift(p.y - 1, height);
    case Some(Down) => JavaShift(p.y + 1, height);
    case Some(Left) => JavaShift(p.x - 1, width);
    case Some(Right) => JavaShift(p.x + 1, width);
  }

  /**
   * The period `1000 / fps` that `keyPressed` hands to `scheduleAtFixedRate`,
   * with Java's division truncated toward zero. `None` is the exception the
   * call throws instead: division by zero when `fps` is 0, and a non-positive
   * period when `fps` is negative or above 1000.
   */
  function TimerPeriod(fps: int): (r: Option<int>)
    ensures r.Some? <==> 1 <= fps <= 1000
    ensures r.Some? ==> r.value >= 1 && r.value * fps <= 1000 < (r.value + 1) * fps
  {
    if fps == 0 then None
    else
      var q := if fps > 0 then 1000 / fps else -(1000 / -fps);
      if q <= 0 then None else Some(q)
  }

  class SnakePanel {
    const gridWidth: int
    const gridHeight: int
    var fps: int
    var posPlayer: Point
    var posApple: Point
    var dirPlayer: Option<Direction>
    var snakeParts: seq<Position>
    var gameOver: bool
    var timerStarted: bool

    /** The head and the apple are distinct objects on the grid. */
    ghost predicate Valid()
      reads this, posPlayer, posApple
    {
      && gridWidth > 0 && gridHeight > 0
      && posPlayer != posApple
      && InBounds(posPlayer.At(), gridWidth, gridHeight)
      && InBounds(posApple.At(), gridWidth, gridHeight)
    }

    /** The constructor: `start` is the random head cell, `draws` the apple candidates. */
    constructor (width: int, height: int, fps: int, start: Position, draws: seq<Position>)
      requires width > 0 && height > 0
      requires InBounds(start, width, height) && AllInBounds(draws, width, height)
      requires HasMiss(draws, start)
      ensures Valid() && fresh(posPlayer) && fresh(posApple)
      ensures gridWidth == width && gridHeight == height && this.fps == fps
      ensures posPlayer.At() == start && dirPlayer == None
      ensures posApple.At() == PickApple(draws, start)
      ensures snakeParts == [] && !gameOver && !timerStarted
    {
      gridWidth, gridHeight := width, height;
      this.fps := fps;
      posPlayer := new Point(start.x, start.y);
      dirPlayer := None;
      posApple := new Point(0, 0);
      snakeParts := [];
      gameOver := false;
      new;
      PlaceApple(draws);
      timerStarted := false;
      PickAppleInBounds(draws, start, width, height);
    }

    /**
     * `placeApple`: first alias the apple to the head, then allocate a new
     * point for every draw until one differs from the head.
     */
    method PlaceApple(draws: seq<Position>)
      requires HasMiss(draws, posPlayer.At())
      modifies this`posApple
      ensures fresh(posApple) && posApple != posPlayer
      ensures posApple.x != posPlayer.x || posApple.y != posPlayer.y
      ensures posApple.At() == PickApple(draws, posPlayer.At())
      ensures AllInBounds(draws, gridWidth, gridHeight) ==> InBounds(posApple.At(), gridWidth, gridHeight)
    {
      posApple := posPlayer;
      ghost var k := FirstMiss(draws, posPlayer.At());
      var i := 0;
      while posApple.x == posPlayer.x && posApple.y == posPlayer.y
        invariant 0 <= i <= k + 1
        invariant i == 0 ==> posApple == posPlayer
        invariant i > 0 ==> fresh(posApple) && posApple.At() == draws[i - 1]
        decreases k + 1 - i
      {
        posApple := new Point(draws[i].x, draws[i].y);
        i := i + 1;
      }
    }

    /** `updateGame`: move the head one cell in place; the apple is untouched. */
    method UpdateGame()
      requires Valid()
      modifies posPlayer
      ensures Valid()
      ensures posPlayer.At() == JavaAdvance(old(posPlayer.At()), dirPlayer, gridWidth, gridHeight)
      ensures posApple.At() == old(posApple.At())
    {
      JavaAdvanceAgrees(posPlayer.At(), dirPlayer, gridWidth, gridHeight);
      match dirPlayer {
        case Some(Up) => posPlayer.y := JavaRem(posPlayer.y - 1 + gridHeight, gridHeight);
        case Some(Down) => posPlayer.y := JavaRem(posPlayer.y + 1 + gridHeight, gridHeight);
        case Some(Left) => posPlayer.x := JavaRem(posPlayer.x - 1 + gridWidth, gridWidth);
        case Some(Right) => posPlayer.x := JavaRem(posPlayer.x + 1 + gridWidth, gridWidth);
        case None =>
      }
    }

    /**
     * `keyPressed`: steer (a reversal is refused), then run exactly one
     * `updateGame` whatever the key, then, on the first press, schedule the
     * timer and mark it as started. `thrown` is the exception scheduling
     * throws for a frame rate outside 1..1000, after the move and before the
     * flag is set.
     */
    method KeyPressed(key: Key) returns (thrown: bool)
      requires Valid()
      modifies this`dirPlayer, this`timerStarted, posPlayer
      ensures Valid()
      ensures dirPlayer == Steer(key, true, old(dirPlayer))
      ensures posPlayer.At() == JavaAdvance(old(posPlayer.At()), dirPlayer, gridWidth, gridHeight)
      ensures posPlayer == old(posPlayer) && posApple == old(posApple)
      ensures posApple.At() == old(posApple.At())
      ensures thrown <==> !old(timerStarted) && TimerPeriod(fps).None?
      ensures timerStarted <==> !thrown
    {
      if (key == ArrowUp || key == LetterW) && dirPlayer != Some(Down) {
        dirPlayer := Some(Up);
      } else if (key == ArrowDown || key == LetterS) && dirPlayer != Some(Up) {
        dirPlayer := Some(Down);
      } else if (key == ArrowLeft || key == LetterA) && dirPlayer != Some(Right) {
        dirPlayer := Some(Left);
      } else if (key == ArrowRight || key == LetterD) && dirPlayer != Some(Left) {
        dirPlayer := Some(Right);
      }

      UpdateGame();

      thrown := false;
      if !timerStarted {
        var period := TimerPeriod(fps);
        if period.None? {
          thrown := true;
          return;
        }
        timerStarted := true;
      }
    }
  }
}
