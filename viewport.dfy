/**
 * Viewport.java: the part of the current tile map that is on screen, given
 * by a pixel position inside the map and a pixel size (the display size).
 */
module Viewports {
  import opened Coordinates
  import opened Tools

  /**
   * checkPosition on one axis: first pull back a window that sticks out
   * past the far edge, then push a negative position up to 0.  A window
   * larger than the map therefore ends up at 0.
   */
  function ClampAxis(p: int, s: int, m: int): (r: int)
    ensures r >= 0
    ensures s <= m ==> r + s <= m
    ensures m < s ==> r == 0
    ensures 0 <= p && p + s <= m ==> r == p
  {
    var a := if p + s > m then m - s else p;
    if a < 0 then 0 else a
  }

  /** The position checkPosition produces, axis by axis. */
  function Clamp(position: Coord, size: Coord, mapSize: Coord): (r: Coord)
    ensures r.x >= 0 && r.y >= 0
    ensures size.x <= mapSize.x ==> r.x + size.x <= mapSize.x
    ensures size.y <= mapSize.y ==> r.y + size.y <= mapSize.y
  {
    Coord(ClampAxis(position.x, size.x, mapSize.x), ClampAxis(position.y, size.y, mapSize.y))
  }

  /** The clamp is the closest admissible position: max(0, min(p, m - s)). */
  lemma ClampAxisIsNearest(p: int, s: int, m: int)
    ensures ClampAxis(p, s, m) == Max(0, Min(p, m - s))
  {
  }

  /** Checking an already checked position changes nothing. */
  lemma ClampIdempotent(position: Coord, size: Coord, mapSize: Coord)
    ensures Clamp(Clamp(position, size, mapSize), size, mapSize) == Clamp(position, size, mapSize)
  {
  }

  /** The window at `position` lies inside the map: no check of checkPosition fires. */
  predicate Inside(position: Coord, size: Coord, mapSize: Coord)
  {
    && 0 <= position.x && position.x + size.x <= mapSize.x
    && 0 <= position.y && position.y + size.y <= mapSize.y
  }

  /**
   * A window inside the map is kept as it is, and the clamp puts every
   * window that fits the map inside it.
   */
  lemma ClampInside(position: Coord, size: Coord, mapSize: Coord)
    ensures Inside(position, size, mapSize) ==> Clamp(position, size, mapSize) == position
    ensures 0 <= size.x <= mapSize.x && 0 <= size.y <= mapSize.y ==>
              Inside(Clamp(position, size, mapSize), size, mapSize)
  {
  }

  class Viewport {
    /** The Coordinate object the viewport was last given; translate moves it in place. */
    var position: Coordinate
    var size: Coord

    /** Viewport(position, size): keeps a reference to the caller's position object. */
    constructor (position: Coordinate, size: Coord)
      ensures this.position == position && this.size == size
    {
      this.position := position;
      this.size := size;
    }

    /**
     * calculateCenter(tileMapSize): the pixel at the middle of the visible
     * part of the map.  The four cases of the source come down to: on each
     * axis, half the smaller of map size and viewport size past the position.
     */
    function CalculateCenter(mapSize: Coord): (c: Coord)
      reads this, position
      ensures c.x == position.x + JavaDiv(Min(mapSize.x, size.x), 2)
      ensures c.y == position.y + JavaDiv(Min(mapSize.y, size.y), 2)
    {
      if mapSize.x >= size.x && mapSize.y >= size.y then
        Coord(position.x + JavaDiv(size.x, 2), position.y + JavaDiv(size.y, 2))
      else if mapSize.x >= size.x then
        Coord(position.x + JavaDiv(size.x, 2), position.y + JavaDiv(mapSize.y, 2))
      else if mapSize.y >= size.y then
        Coord(position.x + JavaDiv(mapSize.x, 2), position.y + JavaDiv(size.y, 2))
      else
        Coord(position.x + JavaDiv(mapSize.x, 2), position.y + JavaDiv(mapSize.y, 2))
    }

    /**
     * checkPosition(tileMapSize): clamps the position into the map.  Each
     * correction installs a new Coordinate object; when nothing needs
     * correcting the same object stays in place.
     */
    method CheckPosition(mapSize: Coord)
      modifies this
      ensures size == old(size)
      ensures position.Value() == Clamp(old(position.Value()), size, mapSize)
      ensures position == old(position) || fresh(position)
      ensures Inside(old(position.Value()), size, mapSize) ==> position == old(position)
    {
      if position.x + size.x > mapSize.x {
        position := new Coordinate(mapSize.x - size.x, position.y);
      }
      if position.x < 0 {
        position := new Coordinate(0, position.y);
      }
      if position.y + size.y > mapSize.y {
        position := new Coordinate(position.x, mapSize.y - size.y);
      }
      if position.y < 0 {
        position := new Coordinate(position.x, 0);
      }
    }

    /**
     * setPosition(position, tileMapSize): adopts the caller's object, then
     * checks it against the map.
     */
    method SetPosition(p: Coordinate, mapSize: Coord)
      modifies this
      ensures size == old(size) && p.Value() == old(p.Value())
      ensures position.Value() == Clamp(p.Value(), size, mapSize)
      ensures Inside(p.Value(), size, mapSize) ==> position == p
    {
      position := p;
      CheckPosition(mapSize);
    }

    /**
     * translate(dx, dy, tileMapSize): moves the current position object in
     * place (anyone else holding it sees the move, unclamped), then checks.
     */
    method Translate(dx: int, dy: int, mapSize: Coord)
      modifies this, position
      ensures size == old(size)
      ensures old(position).Value() == Offset(old(position.Value()), dx, dy)
      ensures position.Value() == Clamp(Offset(old(position.Value()), dx, dy), size, mapSize)
      ensures Inside(Offset(old(position.Value()), dx, dy), size, mapSize) ==> position == old(position)
    {
      position.Add(dx, dy);
      CheckPosition(mapSize);
    }

    /**
     * After a check, with a viewport and a map of at least one pixel, the
     * center lies inside the map.
     */
    lemma CenterInsideMap(mapSize: Coord)
      requires size.x >= 1 && size.y >= 1 && mapSize.x >= 1 && mapSize.y >= 1
      requires position.Value() == Clamp(position.Value(), size, mapSize)
      ensures 0 <= CalculateCenter(mapSize).x < mapSize.x
      ensures 0 <= CalculateCenter(mapSize).y < mapSize.y
    {
    }
  }
}
