/**
 * The vocabulary shared by every variant of the Snake game: grid cells,
 * directions, the keys the variants react to, and one step of toroidal
 * movement as the Python variants write it (`(v - 1) % height`).
 */
module Grid {

  datatype Option<+T> = None | Some(value: T)

  datatype Result<+R, +E> = Success(value: R) | Failure(error: E)

  /** A grid cell; the Python variants use a tuple, the Java ones a `Point`. */
  datatype Position = Position(x: int, y: int)

  datatype Direction = Up | Down | Left | Right

  /** The keys the variants distinguish; every other key is `Other`. */
  datatype Key =
    | ArrowUp | ArrowDown | ArrowLeft | ArrowRight
    | LetterW | LetterA | LetterS | LetterD
    | Refresh | Plus | Minus | Other

  function Max(a: int, b: int): (m: int)
    ensures m >= a && m >= b && (m == a || m == b)
  {
    if a < b then b else a
  }

  predicate InBounds(p: Position, width: int, height: int) {
    0 <= p.x < width && 0 <= p.y < height
  }

  predicate AllInBounds(s: seq<Position>, width: int, height: int) {
    forall i :: 0 <= i < |s| ==> InBounds(s[i], width, height)
  }

  /** The direction whose key the guards refuse while moving in `d`. */
  function Opposite(d: Direction): (o: Direction)
    ensures o != d
  {
    match d
    case Up => Down
    case Down => Up
    case Left => Right
    case Right => Left
  }

  /** The guards pair the directions symmetrically: the reversal of a reversal is the direction itself. */
  lemma OppositeSymmetric(d: Direction)
    ensures Opposite(Opposite(d)) == d
  {
  }

  /** The direction a key asks for: arrows always, W/A/S/D only where `wasd` holds. */
  function Requested(key: Key, wasd: bool): (r: Option<Direction>) {
    match key
    case ArrowUp => Some(Up)
    case ArrowDown => Some(Down)
    case ArrowLeft => Some(Left)
    case ArrowRight => Some(Right)
    case LetterW => if wasd then Some(Up) else None
    case LetterS => if wasd then Some(Down) else None
    case LetterA => if wasd then Some(Left) else None
    case LetterD => if wasd then Some(Right) else None
    case _ => None
  }

  /** A requested direction is taken unless it is the exact reversal of the current one. */
  predicate Accepts(requested: Direction, current: Option<Direction>) {
    current != Some(Opposite(requested))
  }

  /**
   * The direction after a key press in the variants whose key handler only
   * steers: a requested reversal and a key that asks for no direction both
   * keep the current direction.
   */
  function Steer(key: Key, wasd: bool, current: Option<Direction>): (r: Option<Direction>)
    ensures current.Some? ==> r.Some? && r.value != Opposite(current.value)
    ensures r == current || r == Requested(key, wasd)
    ensures Requested(key, wasd).None? ==> r == current
    ensures Requested(key, wasd).Some? && Accepts(Requested(key, wasd).value, current) ==>
              r == Requested(key, wasd)
  {
    match Requested(key, wasd)
    case None => current
    case Some(d) => if Accepts(d, current) then Some(d) else current
  }

  /** Euclidean remainder is determined by any quotient/remainder pair. */
  lemma ModUnique(b: int, q: int, r: int, n: int)
    requires n > 0 && 0 <= r < n && b == q * n + r
    ensures b % n == r
  {
    var d := b / n - q;
    assert b == (b / n) * n + b % n;
    assert d * n == r - b % n;
  }

  /** One step down a coordinate, wrapping from 0 to `n - 1` (`(v - 1) % n`). */
  function WrapDec(v: int, n: int): (r: int)
    requires n > 0
    ensures 0 <= r < n
    ensures 0 <= v < n ==> r == if v == 0 then n - 1 else v - 1
  {
    if 0 < v < n then ModUnique(v - 1, 0, v - 1, n); (v - 1) % n
    else if v == 0 then ModUnique(-1, -1, n - 1, n); (v - 1) % n
    else (v - 1) % n
  }

  /** One step up a coordinate, wrapping from `n - 1` to 0 (`(v + 1) % n`). */
  function WrapInc(v: int, n: int): (r: int)
    requires n > 0
    ensures 0 <= r < n
    ensures 0 <= v < n ==> r == if v == n - 1 then 0 else v + 1
  {
    if 0 <= v < n - 1 then ModUnique(v + 1, 0, v + 1, n); (v + 1) % n
    else if v == n - 1 then ModUnique(n, 1, 0, n); (v + 1) % n
    else (v + 1) % n
  }

  /**
   * One step of the head in `dir`, wrapping around the edges with a floor
   * modulo (Python's `%`, which for a positive modulus is Dafny's `%`).
   * No direction leaves the head where it is.
   */
  function Advance(p: Position, dir: Option<Direction>, width: int, height: int): (q: Position)
    requires width > 0 && height > 0
    ensures dir.None? ==> q == p
    ensures dir == Some(Up) || dir == Some(Down) ==> q.x == p.x
    ensures dir == Some(Left) || dir == Some(Right) ==> q.y == p.y
    ensures InBounds(p, width, height) ==> InBounds(q, width, height)
    ensures InBounds(p, width, height) && dir == Some(Up) ==>
              q.y == if p.y == 0 then height - 1 else p.y - 1
    ensures InBounds(p, width, height) && dir == Some(Down) ==>
              q.y == if p.y == height - 1 then 0 else p.y + 1
    ensures InBounds(p, width, height) && dir == Some(Left) ==>
              q.x == if p.x == 0 then width - 1 else p.x - 1
    ensures InBounds(p, width, height) && dir == Some(Right) ==>
              q.x == if p.x == width - 1 then 0 else p.x + 1
  {
    match dir
    case None => p
    case Some(Up) => Position(p.x, WrapDec(p.y, height))
    case Some(Down) => Position(p.x, WrapInc(p.y, height))
    case Some(Left) => Position(WrapDec(p.x, width), p.y)
    case Some(Right) => Position(WrapInc(p.x, width), p.y)
  }

  /** The column change of one step in `d`. */
  function DeltaX(d: Direction): (dx: int) {
    match d
    case Left => -1
    case Right => 1
    case _ => 0
  }

  /** The row change of one step in `d`. */
  function DeltaY(d: Direction): (dy: int) {
    match d
    case Up => -1
    case Down => 1
    case _ => 0
  }

  /** Where the head is after `n` movement steps (`Advance`) in the same direction; a tick that collides does not move it. */
  function Drift(p: Position, dir: Direction, width: int, height: int, n: nat): (q: Position)
    requires width > 0 && height > 0
  {
    if n == 0 then p else Advance(Drift(p, dir, width, height, n - 1), Some(dir), width, height)
  }

  /** Adding to a residue is adding to the number it is the residue of. */
  lemma ModAdd(a: int, c: int, n: int)
    requires n > 0
    ensures (a % n + c) % n == (a + c) % n
  {
    var b := a % n + c;
    assert a == (a / n) * n + a % n;
    assert b == (b / n) * n + b % n;
    assert a + c == (a / n + b / n) * n + b % n;
    ModUnique(a + c, a / n + b / n, b % n, n);
  }

  /**
   * Toroidal movement in closed form: `n` steps in one direction add `n`
   * times that direction's offset, modulo the grid size.
   */
  lemma {:induction false} DriftClosedForm(p: Position, dir: Direction, width: int, height: int, n: nat)
    requires width > 0 && height > 0 && InBounds(p, width, height)
    ensures Drift(p, dir, width, height, n)
            == Position((p.x + n * DeltaX(dir)) % width, (p.y + n * DeltaY(dir)) % height)
  {
    if n > 0 {
      DriftClosedForm(p, dir, width, height, n - 1);
      var q := Drift(p, dir, width, height, n - 1);
      assert (n - 1) * DeltaX(dir) + DeltaX(dir) == n * DeltaX(dir);
      assert (n - 1) * DeltaY(dir) + DeltaY(dir) == n * DeltaY(dir);
      ModAdd(p.x + (n - 1) * DeltaX(dir), DeltaX(dir), width);
      ModAdd(p.y + (n - 1) * DeltaY(dir), DeltaY(dir), height);
    }
  }

  /** On a 10 by 10 grid, five steps right from (5, 5) wrap round to (0, 5). */
  lemma DriftWrapsRight()
    ensures Drift(Position(5, 5), Right, 10, 10, 5) == Position(0, 5)
  {
    DriftClosedForm(Position(5, 5), Right, 10, 10, 5);
  }
}
