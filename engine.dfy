/**
 * The game-state engine of the two Python variants (`python/main.py` and
 * `main.py`), whose `update_game` bodies are the same: the self-collision
 * check, eating and growth, wrapping movement and the trail shift.
 */
module Engine {
  import opened Grid
  import opened Sampling

  /**
   * What one tick reads and writes: the head, the apple, the trail
   * `snake_parts` (oldest first) and the game-over flag.
   */
  datatype Board = Board(head: Position, apple: Position, parts: seq<Position>, gameOver: bool)

  /** `s[:-1]`: all of the trail but its newest segment, empty for an empty trail. */
  function AllButNewest(s: seq<Position>): (r: seq<Position>) {
    if |s| == 0 then [] else s[..|s| - 1]
  }

  /** `s[1:]`: the trail without its oldest segment, empty for an empty trail. */
  function AllButOldest(s: seq<Position>): (r: seq<Position>) {
    if |s| == 0 then [] else s[1..]
  }

  /** The head lies on the trail other than its newest segment. */
  predicate Collides(b: Board) {
    b.head in AllButNewest(b.parts)
  }

  /** The tick does not collide and the head is on the apple. */
  predicate Eats(b: Board) {
    !Collides(b) && b.head == b.apple
  }

  /**
   * The invariant the Python variants keep: everything on the grid, the
   * newest trail segment is the head, and the game is over only while the
   * head lies on the rest of the trail.
   */
  predicate Consistent(b: Board, width: int, height: int) {
    && InBounds(b.head, width, height)
    && InBounds(b.apple, width, height)
    && AllInBounds(b.parts, width, height)
    && (|b.parts| > 0 ==> b.parts[|b.parts| - 1] == b.head)
    && (b.gameOver ==> Collides(b))
  }

  /**
   * One `update_game`. On a collision only the game-over flag is set.
   * Otherwise the head is appended to the trail and a new apple placed when
   * the head is on the apple; the head then moves one cell in `dir`; the
   * oldest segment is dropped and the new head appended.
   */
  function Tick(b: Board, dir: Option<Direction>, width: int, height: int, draws: seq<Position>): (r: Board)
    requires width > 0 && height > 0
    requires AllInBounds(draws, width, height)
    requires Eats(b) ==> HasMiss(draws, b.head)
    ensures Collides(b) ==> r == b.(gameOver := true)
    ensures Consistent(b, width, height) ==> Consistent(r, width, height)
    ensures Consistent(b, width, height) && b.gameOver ==> r == b
    ensures !Collides(b) ==> r.head == Advance(b.head, dir, width, height) && r.gameOver == b.gameOver
    ensures !Collides(b) ==> |r.parts| > 0 && r.parts[|r.parts| - 1] == r.head
    ensures !Collides(b) ==>
              |r.parts| == if Eats(b) then |b.parts| + 1 else Max(|b.parts|, 1)
    ensures !Collides(b) && |b.parts| > 0 ==>
              r.parts[..|r.parts| - 1] == b.parts[1..] + (if Eats(b) then [b.head] else [])
    ensures Eats(b) ==> r.apple == PickApple(draws, b.head) && r.apple != b.head
                        && InBounds(r.apple, width, height)
    ensures !Eats(b) ==> r.apple == b.apple
  {
    if Collides(b) then b.(gameOver := true)
    else
      var grown := if b.head == b.apple then b.parts + [b.head] else b.parts;
      var apple :=
        if b.head == b.apple then PickAppleInBounds(draws, b.head, width, height); PickApple(draws, b.head)
        else b.apple;
      var head := Advance(b.head, dir, width, height);
      Board(head, apple, AllButOldest(grown) + [head], b.gameOver)
  }

  /** A collision is idempotent: a second tick gives the state the first one gave. */
  lemma CollisionIdempotent(b: Board, dir: Option<Direction>, width: int, height: int, draws: seq<Position>)
    requires width > 0 && height > 0 && AllInBounds(draws, width, height)
    requires Collides(b)
    ensures Tick(Tick(b, dir, width, height, draws), dir, width, height, draws)
            == Tick(b, dir, width, height, draws)
  {
  }

  /**
   * Eating appends the head, which is already the newest segment, so the
   * trail can hold one cell twice: from (1, 2), (2, 2) with the head and the
   * apple on (2, 2), moving right gives (2, 2), (2, 2), (3, 2).
   */
  lemma EatingRepeatsCell()
    ensures HasMiss([Position(0, 0)], Position(2, 2))
    ensures Tick(Board(Position(2, 2), Position(2, 2), [Position(1, 2), Position(2, 2)], false),
                 Some(Right), 5, 5, [Position(0, 0)]).parts
            == [Position(2, 2), Position(2, 2), Position(3, 2)]
  {
    var b := Board(Position(2, 2), Position(2, 2), [Position(1, 2), Position(2, 2)], false);
    assert AllButNewest(b.parts) == [Position(1, 2)];
    assert !Collides(b);
    assert [Position(0, 0)][0] != Position(2, 2);
  }
}
