/** The mutable coordinate pair `java.awt.Point` that the Java variants hold by reference. */
module Awt {
  import opened Grid

  class Point {
    var x: int
    var y: int

    constructor (x: int, y: int)
      ensures this.x == x && this.y == y
    {
      this.x, this.y := x, y;
    }

    /** The cell this point stands for. */
    function At(): (p: Position)
      reads this
    {
      Position(x, y)
    }
  }
}
