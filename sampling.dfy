/**
 * Apple placement by rejection sampling, as every variant writes it: start
 * with the apple on the head and draw cells until one differs from the head.
 *
 * Randomness is an oracle: `draws` is the sequence of cells the random number
 * generator would hand out, one `(randrange(width), randrange(height))` pair
 * per loop iteration. The loop exits at the first draw that differs from the
 * head; `HasMiss` says that such a draw exists, which is the exit condition.
 */
module Sampling {
  import opened Grid

  predicate HasMiss(draws: seq<Position>, avoid: Position) {
    exists i :: 0 <= i < |draws| && draws[i] != avoid
  }

  /** Index of the draw the sampling loop stops at: the first one that differs from `avoid`. */
  function FirstMiss(draws: seq<Position>, avoid: Position): (k: nat)
    requires HasMiss(draws, avoid)
    ensures k < |draws| && draws[k] != avoid
    ensures forall j :: 0 <= j < k ==> draws[j] == avoid
  {
    if draws[0] != avoid then 0
    else
      assert HasMiss(draws[1..], avoid) by {
        var i :| 0 <= i < |draws| && draws[i] != avoid;
        assert draws[1..][i - 1] == draws[i];
      }
      1 + FirstMiss(draws[1..], avoid)
  }

  /** The cell the sampling loop leaves the apple on. */
  function PickApple(draws: seq<Position>, avoid: Position): (apple: Position)
    requires HasMiss(draws, avoid)
    ensures apple != avoid
    ensures apple in draws
  {
    draws[FirstMiss(draws, avoid)]
  }

  /** Draws that all lie on the grid give an apple on the grid. */
  lemma PickAppleInBounds(draws: seq<Position>, avoid: Position, width: int, height: int)
    requires HasMiss(draws, avoid) && AllInBounds(draws, width, height)
    ensures InBounds(PickApple(draws, avoid), width, height)
  {
  }

  /**
   * A grid of more than one cell has a cell other than the head, so some
   * sequence of draws on the grid lets the sampling loop terminate, which is
   * what every placement requires; on a 1 by 1 grid the loop never exits.
   */
  lemma FreeCellExists(head: Position, width: int, height: int)
    requires InBounds(head, width, height) && (width >= 2 || height >= 2)
    ensures exists p :: InBounds(p, width, height) && p != head
    ensures exists draws :: AllInBounds(draws, width, height) && HasMiss(draws, head)
  {
    var p := if width >= 2 then Position(if head.x == 0 then 1 else 0, head.y)
             else Position(head.x, if head.y == 0 then 1 else 0);
    assert InBounds(p, width, height) && p != head;
    assert [p][0] != head;
    assert AllInBounds([p], width, height) && HasMiss([p], head);
  }
}
