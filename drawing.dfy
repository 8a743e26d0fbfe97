/**
 * Drawing.java: a drawing is a list of tile maps, one per zoom level and
 * ordered by level, the tile map now on screen, the pixel size the drawing
 * is first shown at, and the defects marked on it.
 */
module Drawings {
  import opened Coordinates
  import opened TileMaps

  /** Defect.java: a note of some type at a position, with a size. */
  datatype Defect = Defect(typeOfNote: string, position: Coord, size: Coord)

  /**
   * ArrayList.add(location, x): x lands at `location`, the elements before
   * it stay where they are and the ones from `location` on move up by one.
   */
  function Inserted<T>(s: seq<T>, x: T, location: int): (r: seq<T>)
    requires 0 <= location <= |s|
    ensures |r| == |s| + 1 && r[location] == x
    ensures forall i :: 0 <= i < location ==> r[i] == s[i]
    ensures forall i :: location < i < |r| ==> r[i] == s[i - 1]
  {
    s[..location] + [x] + s[location..]
  }

  /** Inserting at the end is appending. */
  lemma InsertedAtEnd<T>(s: seq<T>, x: T)
    ensures Inserted(s, x, |s|) == s + [x]
  {
    assert s[..|s|] == s;
  }

  /** Inserting and then dropping the inserted element gives the list back. */
  lemma InsertedThenRemoved<T>(s: seq<T>, x: T, location: int)
    requires 0 <= location <= |s|
    ensures var r := Inserted(s, x, location); r[..location] + r[location + 1..] == s
  {
    var r := Inserted(s, x, location);
    assert r[..location] == s[..location];
    assert r[location + 1..] == s[location..];
    assert s[..location] + s[location..] == s;
  }

  class Drawing {
    var tileMaps: seq<TileMap>
    /** The tile map now on screen; null until one is chosen. */
    var activeTileMap: TileMap?
    /** The pixel size the drawing is first shown at. */
    var initialSize: Coord
    var defects: seq<Defect>

    /** Drawing(tileMaps, activeTileMap, initialSize, defects). */
    constructor (tileMaps: seq<TileMap>, activeTileMap: TileMap?, initialSize: Coord, defects: seq<Defect>)
      ensures this.tileMaps == tileMaps && this.activeTileMap == activeTileMap
      ensures this.initialSize == initialSize && this.defects == defects
    {
      this.tileMaps := tileMaps;
      this.activeTileMap := activeTileMap;
      this.initialSize := initialSize;
      this.defects := defects;
    }

    /** Drawing(initialSize): no tile maps, no active map, no defects. */
    constructor Sized(initialSize: Coord)
      ensures tileMaps == [] && activeTileMap == null && defects == []
      ensures this.initialSize == initialSize
    {
      tileMaps := [];
      activeTileMap := null;
      this.initialSize := initialSize;
      defects := [];
    }

    /** addTileMap(tileMap): appends; nothing else changes. */
    method AddTileMap(tileMap: TileMap)
      modifies this
      ensures tileMaps == old(tileMaps) + [tileMap]
      ensures activeTileMap == old(activeTileMap) && initialSize == old(initialSize) && defects == old(defects)
    {
      tileMaps := tileMaps + [tileMap];
    }

    /** addTileMap(tileMap, location): inserts; ArrayList throws for a location outside 0..size. */
    method AddTileMapAt(tileMap: TileMap, location: int)
      requires 0 <= location <= |tileMaps|
      modifies this
      ensures tileMaps == Inserted(old(tileMaps), tileMap, location)
      ensures activeTileMap == old(activeTileMap) && initialSize == old(initialSize) && defects == old(defects)
    {
      tileMaps := tileMaps[..location] + [tileMap] + tileMaps[location..];
    }

    /** setDefects(defects): replaces the defect list; nothing else changes. */
    method SetDefects(defects: seq<Defect>)
      modifies this
      ensures this.defects == defects
      ensures tileMaps == old(tileMaps) && activeTileMap == old(activeTileMap) && initialSize == old(initialSize)
    {
      this.defects := defects;
    }

    /** setAcitveTileMap(m): getAcitveTileMap() then returns m; the list is untouched. */
    method SetActiveTileMap(m: TileMap?)
      modifies this
      ensures activeTileMap == m
      ensures tileMaps == old(tileMaps) && initialSize == old(initialSize) && defects == old(defects)
    {
      activeTileMap := m;
    }
  }
}
