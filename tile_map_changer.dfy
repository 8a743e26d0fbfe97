/**
 * TileMapChanger.java: zooming.  The tile maps of a drawing are ordered
 * from the coarsest to the finest level; zooming in makes the next map the
 * active one, zooming out the previous one.  The viewport moves so that the
 * point of the drawing in the middle of the display stays there, and is
 * clamped to the new map.
 */
module Zooming {
  import opened Coordinates
  import opened Tools
  import opened TileMaps
  import opened Viewports
  import opened Drawings

  /**
   * calculateNewPosition(oldPos, scaleFactor, displaySize) on one axis: the
   * old position scaled, plus half the display (integer division first)
   * times (scaleFactor - 1), cast back to int.
   */
  function ScaleAxis(position: int, scaleFactor: real, displaySize: int): int
  {
    var half := JavaDiv(displaySize, 2);
    Trunc(position as real * scaleFactor + half as real * (scaleFactor - 1.0))
  }

  /**
   * Java's form of the scaled position is the scaled middle of the display
   * minus half the display.
   */
  lemma ScaledAroundCenter(position: int, half: int, scaleFactor: real, center: int)
    requires (position + half) as real * scaleFactor == center as real
    ensures position as real * scaleFactor + half as real * (scaleFactor - 1.0) == (center - half) as real
  {
    var a, h := position as real, half as real;
    calc {
      (center - half) as real;
      (a + h) * scaleFactor - h;
      { MulAddRight(a, h, scaleFactor); }
      a * scaleFactor + h * scaleFactor - h;
      { MulMinusOne(h, scaleFactor); }
      a * scaleFactor + h * (scaleFactor - 1.0);
    }
  }

  lemma MulAddRight(a: real, b: real, c: real)
    ensures (a + b) * c == a * c + b * c
  {
  }

  lemma MulMinusOne(a: real, c: real)
    ensures a * (c - 1.0) == a * c - a
  {
  }

  /**
   * calculateNewPosition(oldPos, scaleFactor, displaySize), both axes; a
   * scale factor of 1 leaves the position where it was.
   */
  function CalculateNewPosition(oldPos: Coord, scaleFactor: real, displaySize: Coord): (r: Coord)
    ensures scaleFactor == 1.0 ==> r == oldPos
  {
    TruncIntegral(oldPos.x);
    TruncIntegral(oldPos.y);
    Coord(ScaleAxis(oldPos.x, scaleFactor, displaySize.x), ScaleAxis(oldPos.y, scaleFactor, displaySize.y))
  }

  /** A scale factor of 1 keeps the position. */
  lemma CalculateNewPositionIdentity(oldPos: Coord, displaySize: Coord)
    ensures CalculateNewPosition(oldPos, 1.0, displaySize) == oldPos
  {
    TruncIntegral(oldPos.x);
    TruncIntegral(oldPos.y);
  }

  /**
   * The point in the middle of the display, oldPos + displaySize / 2, is
   * carried to that point times the scale factor: when that product is a
   * whole number, the new position puts it in the middle of the display again.
   */
  lemma CalculateNewPositionKeepsCenter(oldPos: Coord, scaleFactor: real, displaySize: Coord, center: Coord)
    requires (oldPos.x + JavaDiv(displaySize.x, 2)) as real * scaleFactor == center.x as real
    requires (oldPos.y + JavaDiv(displaySize.y, 2)) as real * scaleFactor == center.y as real
    ensures CalculateNewPosition(oldPos, scaleFactor, displaySize) ==
              Coord(center.x - JavaDiv(displaySize.x, 2), center.y - JavaDiv(displaySize.y, 2))
  {
    AxisKeepsCenter(oldPos.x, scaleFactor, displaySize.x, center.x);
    AxisKeepsCenter(oldPos.y, scaleFactor, displaySize.y, center.y);
  }

  lemma AxisKeepsCenter(position: int, scaleFactor: real, displaySize: int, center: int)
    requires (position + JavaDiv(displaySize, 2)) as real * scaleFactor == center as real
    ensures ScaleAxis(position, scaleFactor, displaySize) == center - JavaDiv(displaySize, 2)
  {
    var half := JavaDiv(displaySize, 2);
    ScaledAroundCenter(position, half, scaleFactor, center);
    ScaleAxisWhole(position, scaleFactor, displaySize, center - half);
  }

  /** When Java's scaled value is a whole number n, the cast gives n. */
  lemma ScaleAxisWhole(position: int, scaleFactor: real, displaySize: int, n: int)
    requires position as real * scaleFactor + JavaDiv(displaySize, 2) as real * (scaleFactor - 1.0) == n as real
    ensures ScaleAxis(position, scaleFactor, displaySize) == n
  {
    TruncIntegral(n);
  }

  /**
   * Zooming by s and back by its inverse b (s * b == 1) returns to the old
   * position when the scaled middle of the display is a whole point.
   */
  lemma CalculateNewPositionRoundTrip(oldPos: Coord, scaleFactor: real, back: real, displaySize: Coord, center: Coord)
    requires scaleFactor * back == 1.0
    requires (oldPos.x + JavaDiv(displaySize.x, 2)) as real * scaleFactor == center.x as real
    requires (oldPos.y + JavaDiv(displaySize.y, 2)) as real * scaleFactor == center.y as real
    ensures CalculateNewPosition(CalculateNewPosition(oldPos, scaleFactor, displaySize), back, displaySize) == oldPos
  {
    AxisRoundTrip(oldPos.x, scaleFactor, back, displaySize.x, center.x);
    AxisRoundTrip(oldPos.y, scaleFactor, back, displaySize.y, center.y);
  }

  lemma AxisRoundTrip(position: int, scaleFactor: real, back: real, displaySize: int, center: int)
    requires scaleFactor * back == 1.0
    requires (position + JavaDiv(displaySize, 2)) as real * scaleFactor == center as real
    ensures ScaleAxis(ScaleAxis(position, scaleFactor, displaySize), back, displaySize) == position
  {
    var half := JavaDiv(displaySize, 2);
    AxisKeepsCenter(position, scaleFactor, displaySize, center);
    var p := ScaleAxis(position, scaleFactor, displaySize);
    assert (p + half) as real == center as real;
    ScaleBack((position + half) as real, scaleFactor, back);
    AxisKeepsCenter(p, back, displaySize, position + half);
  }

  lemma ScaleBack(a: real, s: real, b: real)
    requires s * b == 1.0
    ensures (a * s) * b == a
  {
    assert (a * s) * b == a * (s * b);
  }

  /** Zooming in twice the drawing's scale with a 400 x 400 display at (100, 100) lands at (400, 400). */
  lemma CalculateNewPositionExample(oldPos: Coord, displaySize: Coord)
    requires oldPos == Coord(100, 100) && displaySize == Coord(400, 400)
    ensures CalculateNewPosition(oldPos, 2.0, displaySize) == Coord(400, 400)
  {
    CalculateNewPositionKeepsCenter(oldPos, 2.0, displaySize, Coord(600, 600));
  }

  /** Where zoomIn goes: the map after the active one (the first one if the active map is not in the list). */
  function ZoomInIndex<T(==)>(tileMaps: seq<T>, active: T): int
  {
    IndexOf(tileMaps, active) + 1
  }

  /** Where zoomOut goes: the map before the active one. */
  function ZoomOutIndex<T(==)>(tileMaps: seq<T>, active: T): int
  {
    IndexOf(tileMaps, active) - 1
  }

  /**
   * With no tile map listed twice, zooming in from a listed map and then
   * zooming out comes back to it.
   */
  lemma ZoomInThenOut<T>(tileMaps: seq<T>, active: T)
    requires forall i, j :: 0 <= i < j < |tileMaps| ==> tileMaps[i] != tileMaps[j]
    requires active in tileMaps
    requires ZoomInIndex(tileMaps, active) < |tileMaps|
    ensures var next := tileMaps[ZoomInIndex(tileMaps, active)];
            0 <= ZoomOutIndex(tileMaps, next) && tileMaps[ZoomOutIndex(tileMaps, next)] == active
  {
    var i := IndexOf(tileMaps, active);
    var next := tileMaps[i + 1];
    assert IndexOf(tileMaps, next) == i + 1 by {
      var j := IndexOf(tileMaps, next);
      assert tileMaps[j] == next;
    }
  }

  /** Zooming out and then in again comes back as well. */
  lemma ZoomOutThenIn<T>(tileMaps: seq<T>, active: T)
    requires forall i, j :: 0 <= i < j < |tileMaps| ==> tileMaps[i] != tileMaps[j]
    requires 0 <= ZoomOutIndex(tileMaps, active)
    ensures var previous := tileMaps[ZoomOutIndex(tileMaps, active)];
            ZoomInIndex(tileMaps, previous) < |tileMaps| && tileMaps[ZoomInIndex(tileMaps, previous)] == active
  {
    var i := IndexOf(tileMaps, active);
    var previous := tileMaps[i - 1];
    assert IndexOf(tileMaps, previous) == i - 1 by {
      var j := IndexOf(tileMaps, previous);
      assert tileMaps[j] == previous;
    }
  }

  class TileMapChanger {
    const drawing: Drawing
    const viewport: Viewport

    constructor (drawing: Drawing, viewport: Viewport)
      ensures this.drawing == drawing && this.viewport == viewport
    {
      this.drawing := drawing;
      this.viewport := viewport;
    }

    /**
     * initZoom(tileMap): the new map becomes the active one and the
     * viewport is set to the new position, clamped to the new map's size.
     * The relative scale factor divides by the old map's factor.
     */
    method InitZoom(tileMap: TileMap)
      requires drawing.activeTileMap != null && drawing.activeTileMap.scaleFactor != 0.0
      requires tileMap.HasFirstTile()
      modifies drawing, viewport
      ensures drawing.activeTileMap == tileMap
      ensures drawing.tileMaps == old(drawing.tileMaps) && drawing.defects == old(drawing.defects)
      ensures drawing.initialSize == old(drawing.initialSize)
      ensures viewport.size == old(viewport.size)
      ensures viewport.position.Value() ==
                Clamp(CalculateNewPosition(old(viewport.position.Value()),
                                           tileMap.scaleFactor / old(drawing.activeTileMap.scaleFactor),
                                           viewport.size),
                      viewport.size, tileMap.GetSize())
    {
      var scaleFactor := tileMap.scaleFactor / drawing.activeTileMap.scaleFactor;
      drawing.SetActiveTileMap(tileMap);
      var p := CalculateNewPosition(viewport.position.Value(), scaleFactor, viewport.size);
      var newPos := new Coordinate(p.x, p.y);
      viewport.SetPosition(newPos, tileMap.GetSize());
    }

    /** The map zoomIn would go to, and whether initZoom can run on it. */
    ghost predicate CanZoomIn()
      reads this, drawing, drawing.activeTileMap, drawing.tileMaps, set m | m in drawing.tileMaps :: m.tiles
    {
      var i := ZoomInIndex(drawing.tileMaps, drawing.activeTileMap);
      i < |drawing.tileMaps| ==>
        drawing.activeTileMap != null && drawing.activeTileMap.scaleFactor != 0.0 && drawing.tileMaps[i].HasFirstTile()
    }

    /**
     * zoomIn(): the map after the active one becomes active, unless the
     * active map is the last one; then nothing in the model changes (the
     * source only shows a message).
     */
    method ZoomIn() returns (zoomed: bool)
      requires CanZoomIn()
      modifies drawing, viewport
      ensures zoomed <==> ZoomInIndex(old(drawing.tileMaps), old(drawing.activeTileMap)) < |old(drawing.tileMaps)|
      ensures drawing.tileMaps == old(drawing.tileMaps)
      ensures zoomed ==> drawing.activeTileMap == drawing.tileMaps[ZoomInIndex(drawing.tileMaps, old(drawing.activeTileMap))]
      ensures zoomed ==>
                drawing.activeTileMap.HasFirstTile() &&
                viewport.position.Value() ==
                  Clamp(CalculateNewPosition(old(viewport.position.Value()),
                                             drawing.activeTileMap.scaleFactor / old(drawing.activeTileMap.scaleFactor),
                                             viewport.size),
                        viewport.size, drawing.activeTileMap.GetSize())
      ensures drawing.defects == old(drawing.defects) && drawing.initialSize == old(drawing.initialSize)
      ensures !zoomed ==> drawing.activeTileMap == old(drawing.activeTileMap) && viewport.position == old(viewport.position)
      ensures viewport.size == old(viewport.size)
    {
      var i := ZoomInIndex(drawing.tileMaps, drawing.activeTileMap);
      zoomed := i < |drawing.tileMaps|;
      if zoomed {
        InitZoom(drawing.tileMaps[i]);
      }
    }

    ghost predicate CanZoomOut()
      reads this, drawing, drawing.activeTileMap, drawing.tileMaps, set m | m in drawing.tileMaps :: m.tiles
    {
      var i := ZoomOutIndex(drawing.tileMaps, drawing.activeTileMap);
      0 <= i ==> drawing.activeTileMap != null && drawing.activeTileMap.scaleFactor != 0.0 && drawing.tileMaps[i].HasFirstTile()
    }

    /** zoomOut(): the map before the active one becomes active, unless the active map is the first one. */
    method ZoomOut() returns (zoomed: bool)
      requires CanZoomOut()
      modifies drawing, viewport
      ensures zoomed <==> 0 <= ZoomOutIndex(old(drawing.tileMaps), old(drawing.activeTileMap))
      ensures drawing.tileMaps == old(drawing.tileMaps)
      ensures zoomed ==> drawing.activeTileMap == drawing.tileMaps[ZoomOutIndex(drawing.tileMaps, old(drawing.activeTileMap))]
      ensures zoomed ==>
                drawing.activeTileMap.HasFirstTile() &&
                viewport.position.Value() ==
                  Clamp(CalculateNewPosition(old(viewport.position.Value()),
                                             drawing.activeTileMap.scaleFactor / old(drawing.activeTileMap.scaleFactor),
                                             viewport.size),
                        viewport.size, drawing.activeTileMap.GetSize())
      ensures drawing.defects == old(drawing.defects) && drawing.initialSize == old(drawing.initialSize)
      ensures !zoomed ==> drawing.activeTileMap == old(drawing.activeTileMap) && viewport.position == old(viewport.position)
      ensures viewport.size == old(viewport.size)
    {
      var i := ZoomOutIndex(drawing.tileMaps, drawing.activeTileMap);
      zoomed := 0 <= i;
      if zoomed {
        InitZoom(drawing.tileMaps[i]);
      }
    }
  }
}
