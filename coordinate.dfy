/**
 * Coordinate.java: an integer pair used as a position, a size or a grid index.
 *
 * The Java class is mutable (`add` and the setters change it in place), but
 * most of the system uses it as a value.  `Coord` is that value (what
 * `equals` compares); `Coordinate` is the mutable object, kept for the places
 * where an update in place can be observed through another reference.
 */
module Coordinates {

  /** The value of a Coordinate.  Negative components are allowed. */
  datatype Coord = Coord(x: int, y: int)

  /** The value a Coordinate has after `add(dx, dy)`. */
  function Offset(c: Coord, dx: int, dy: int): (r: Coord)
    ensures r.x - c.x == dx && r.y - c.y == dy
  {
    Coord(c.x + dx, c.y + dy)
  }

  /** Moving by (dx, dy) and back by (-dx, -dy) restores the value; (0, 0) moves nothing. */
  lemma OffsetUndo(c: Coord, dx: int, dy: int)
    ensures Offset(Offset(c, dx, dy), -dx, -dy) == c
    ensures Offset(c, 0, 0) == c
  {
  }

  class Coordinate {
    var x: int
    var y: int

    /** Coordinate(int x, int y) */
    constructor (x: int, y: int)
      ensures Value() == Coord(x, y)
    {
      this.x := x;
      this.y := y;
    }

    /** Coordinate(): the origin. */
    constructor Origin()
      ensures Value() == Coord(0, 0)
    {
      x := 0;
      y := 0;
    }

    /** Coordinate(Coordinate c): a new object equal to `c`. */
    constructor Copy(c: Coordinate)
      ensures Equals(c) && Value() == c.Value()
    {
      x := c.x;
      y := c.y;
    }

    function Value(): Coord
      reads this
    {
      Coord(x, y)
    }

    /** equals(Coordinate c): equal values, whatever the object identities. */
    predicate Equals(c: Coordinate)
      reads this, c
      ensures Equals(c) <==> Value() == c.Value()
    {
      x == c.x && y == c.y
    }

    /** add(dx, dy): moves this object in place. */
    method Add(dx: int, dy: int)
      modifies this
      ensures Value() == Offset(old(Value()), dx, dy)
    {
      x := x + dx;
      y := y + dy;
    }
  }
}
