/**
 * TileMap.java: one zoom level, a two-dimensional array of tiles indexed
 * [x][y] (x across, y down) together with a scale factor.  The array is
 * filled column by column: x outer, y inner.
 */
module TileMaps {
  import opened Wrappers
  import opened Coordinates
  import opened Tools
  import opened Tiles

  class TileMap {
    /** Tile[][] tiles; a cell is null until a tile is put there. */
    const tiles: array2<Tile?>
    /** The float scale factor relative to the drawing's reference size. */
    const scaleFactor: real

    /** TileMap(dimension, scaleFactor): dimension.x columns of dimension.y empty cells. */
    constructor (dimension: Coord, scaleFactor: real)
      requires dimension.x >= 0 && dimension.y >= 0
      ensures fresh(tiles)
      ensures Dimension() == dimension && Empty()
      ensures this.scaleFactor == scaleFactor
    {
      tiles := new Tile?[dimension.x, dimension.y]((i, j) => null);
      this.scaleFactor := scaleFactor;
    }

    /** TileMap(tiles, scaleFactor): wraps an existing array, shared with the caller. */
    constructor FromTiles(tiles: array2<Tile?>, scaleFactor: real)
      ensures this.tiles == tiles && this.scaleFactor == scaleFactor
    {
      this.tiles := tiles;
      this.scaleFactor := scaleFactor;
    }

    /** (number of columns, number of rows) of the array. */
    function Dimension(): Coord
    {
      Coord(tiles.Length0, tiles.Length1)
    }

    ghost predicate Empty()
      reads this, tiles
    {
      forall i, j :: 0 <= i < tiles.Length0 && 0 <= j < tiles.Length1 ==> tiles[i, j] == null
    }

    ghost predicate Full()
      reads this, tiles
    {
      forall i, j :: 0 <= i < tiles.Length0 && 0 <= j < tiles.Length1 ==> tiles[i, j] != null
    }

    /** What getSize, getTileSize and getDimension need: a tile at [0][0]. */
    ghost predicate HasFirstTile()
      reads this, tiles
    {
      tiles.Length0 > 0 && tiles.Length1 > 0 && tiles[0, 0] != null
    }

    /** All tiles of the map have the size of the tile at [0][0]. */
    ghost predicate Uniform()
      reads this, tiles
      requires HasFirstTile()
    {
      forall i, j :: 0 <= i < tiles.Length0 && 0 <= j < tiles.Length1 && tiles[i, j] != null ==>
        tiles[i, j].size == tiles[0, 0].size
    }

    /** The set of tile objects in the map. */
    ghost function TileObjects(): set<Tile>
      reads this, tiles
    {
      set i, j | 0 <= i < tiles.Length0 && 0 <= j < tiles.Length1 && tiles[i, j] != null :: tiles[i, j]
    }

    /** `c` is the first empty cell in x-outer, y-inner order. */
    ghost predicate IsFirstFree(c: Coord)
      reads this, tiles
    {
      && InGrid(c, Dimension())
      && tiles[c.x, c.y] == null
      && forall i, j :: 0 <= i < tiles.Length0 && 0 <= j < tiles.Length1 && ScanBefore(Coord(i, j), c) ==>
           tiles[i, j] != null
    }

    /** The first empty cell at or after (x, y) in x-outer, y-inner order. */
    ghost function FirstFreeFrom(x: int, y: int): (r: Option<Coord>)
      reads this, tiles
      requires 0 <= x <= tiles.Length0 && 0 <= y <= tiles.Length1
      ensures r.Some? ==> InGrid(r.value, Dimension()) && tiles[r.value.x, r.value.y] == null
      decreases tiles.Length0 - x, tiles.Length1 - y
    {
      if x == tiles.Length0 then None
      else if y == tiles.Length1 then FirstFreeFrom(x + 1, 0)
      else if tiles[x, y] == null then Some(Coord(x, y))
      else FirstFreeFrom(x, y + 1)
    }

    ghost function FirstFree(): Option<Coord>
      reads this, tiles
    {
      FirstFreeFrom(0, 0)
    }

    /**
     * getNextFreePosition(): the first null cell in x-outer, y-inner order,
     * or none when every cell holds a tile.
     */
    method GetNextFreePosition() returns (r: Option<Coord>)
      ensures r == FirstFree()
      ensures r.Some? ==> IsFirstFree(r.value)
      ensures r.None? <==> Full()
    {
      var x := 0;
      while x < tiles.Length0
        invariant 0 <= x <= tiles.Length0
        invariant FirstFreeFrom(x, 0) == FirstFree()
        invariant forall i, j :: 0 <= i < x && 0 <= j < tiles.Length1 ==> tiles[i, j] != null
      {
        var y := 0;
        while y < tiles.Length1
          invariant 0 <= y <= tiles.Length1
          invariant FirstFreeFrom(x, y) == FirstFree()
          invariant forall j :: 0 <= j < y ==> tiles[x, j] != null
        {
          if tiles[x, y] == null {
            return Some(Coord(x, y));
          }
          y := y + 1;
        }
        x := x + 1;
      }
      return None;
    }

    /** Scanning from any cell at or before the first free one finds it. */
    lemma {:induction false} FirstFreeFromFinds(x: int, y: int, c: Coord)
      requires 0 <= x <= tiles.Length0 && 0 <= y <= tiles.Length1
      requires IsFirstFree(c) && !ScanBefore(c, Coord(x, y))
      ensures FirstFreeFrom(x, y) == Some(c)
      decreases tiles.Length0 - x, tiles.Length1 - y
    {
      if x == tiles.Length0 {
      } else if y == tiles.Length1 {
        FirstFreeFromFinds(x + 1, 0, c);
      } else if tiles[x, y] == null {
        if Coord(x, y) != c {
          assert ScanBefore(Coord(x, y), c);
        }
      } else {
        assert Coord(x, y) != c;
        FirstFreeFromFinds(x, y + 1, c);
      }
    }

    /**
     * Filling order: when exactly the cells with child index below k hold
     * tiles, the next free cell is (k / Y, k % Y).  So the k-th tile added to
     * an empty map lands in cell (k / Y, k % Y), the cell whose view is child
     * number k of the map's view.
     */
    ghost predicate FilledPrefix(k: int)
      reads this, tiles
    {
      forall i, j :: 0 <= i < tiles.Length0 && 0 <= j < tiles.Length1 ==>
        (tiles[i, j] != null <==> ChildIndex(Coord(i, j), Dimension()) < k)
    }

    lemma FillOrder(k: int)
      requires FilledPrefix(k) && 0 <= k < tiles.Length0 * tiles.Length1
      ensures tiles.Length1 > 0
      ensures FirstFree() == Some(ChildPos(k, Dimension()))
    {
      var dim := Dimension();
      assert dim.y > 0 by {
        if dim.y <= 0 {
          MulMonotone(dim.y, 0, dim.x);
        }
      }
      var c := ChildPos(k, dim);
      ChildPosInverse(k, dim);
      forall i, j | 0 <= i < tiles.Length0 && 0 <= j < tiles.Length1 && ScanBefore(Coord(i, j), c)
        ensures tiles[i, j] != null
      {
        ChildIndexFollowsScan(Coord(i, j), c, dim);
      }
      FirstFreeFromFinds(0, 0, c);
    }

    /**
     * addTile(tile): stores the tile in the first free cell and changes no
     * other cell; when the array is full the source throws an Error, here
     * `ok` is false and nothing changes.
     */
    method AddTile(tile: Tile) returns (ok: bool)
      modifies tiles
      ensures ok <==> !old(Full())
      ensures ok ==> old(FirstFree()).Some? && tiles[old(FirstFree()).value.x, old(FirstFree()).value.y] == tile
      ensures forall i, j :: 0 <= i < tiles.Length0 && 0 <= j < tiles.Length1 && old(FirstFree()) != Some(Coord(i, j)) ==>
                tiles[i, j] == old(tiles[i, j])
    {
      var pos := GetNextFreePosition();
      if pos.Some? {
        tiles[pos.value.x, pos.value.y] := tile;
        ok := true;
      } else {
        ok := false;
      }
    }

    /** getTile(x, y); an index outside the array throws in the source. */
    function GetTile(x: int, y: int): (t: Tile?)
      reads this, tiles
      requires 0 <= x < tiles.Length0 && 0 <= y < tiles.Length1
      ensures t != null ==> t in TileObjects()
      ensures Full() ==> t != null
    {
      tiles[x, y]
    }

    /** setTile(x, y, tile) */
    method SetTile(x: int, y: int, tile: Tile?)
      requires 0 <= x < tiles.Length0 && 0 <= y < tiles.Length1
      modifies tiles
      ensures GetTile(x, y) == tile
      ensures forall i, j :: 0 <= i < tiles.Length0 && 0 <= j < tiles.Length1 && (i, j) != (x, y) ==>
                tiles[i, j] == old(tiles[i, j])
    {
      tiles[x, y] := tile;
    }

    /** getArea may index only inside the array (it throws otherwise). */
    predicate AreaInBounds(x: int, y: int, dx: int, dy: int)
    {
      dx <= 0 || dy <= 0 || (0 <= x && x + dx <= tiles.Length0 && 0 <= y && y + dy <= tiles.Length1)
    }

    /**
     * getArea(x, y, dx, dy): the dx * dy tiles tiles[x + i][y + j], with i
     * outer and j inner, so tile (i, j) of the area sits at its child index
     * i * dy + j.
     */
    method GetArea(x: int, y: int, dx: int, dy: int) returns (result: seq<Tile?>)
      requires AreaInBounds(x, y, dx, dy)
      ensures dx <= 0 || dy <= 0 ==> result == []
      ensures dx > 0 && dy > 0 ==> |result| == dx * dy
      ensures forall i, j :: 0 <= i < dx && 0 <= j < dy ==>
                0 <= ChildIndex(Coord(i, j), Coord(dx, dy)) < |result| &&
                result[ChildIndex(Coord(i, j), Coord(dx, dy))] == tiles[x + i, y + j]
    {
      result := [];
      if dx <= 0 || dy <= 0 {
        return;
      }
      var area := Coord(dx, dy);
      var i := 0;
      while i < dx
        invariant 0 <= i <= dx
        invariant |result| == i * dy
        invariant forall a, b :: 0 <= a < i && 0 <= b < dy ==>
                    0 <= ChildIndex(Coord(a, b), area) < i * dy &&
                    result[ChildIndex(Coord(a, b), area)] == tiles[x + a, y + b]
      {
        var j := 0;
        while j < dy
          invariant 0 <= j <= dy
          invariant |result| == i * dy + j
          invariant forall a, b :: 0 <= a < i && 0 <= b < dy ==>
                      0 <= ChildIndex(Coord(a, b), area) < i * dy &&
                      result[ChildIndex(Coord(a, b), area)] == tiles[x + a, y + b]
          invariant forall b :: 0 <= b < j ==>
                      ChildIndex(Coord(i, b), area) == i * dy + b &&
                      result[ChildIndex(Coord(i, b), area)] == tiles[x + i, y + b]
        {
          result := result + [tiles[x + i, y + j]];
          j := j + 1;
        }
        assert (i + 1) * dy == i * dy + dy;
        assert 0 <= i * dy by {
          MulMonotone(0, i, dy);
        }
        i := i + 1;
      }
    }

    /** getDimension(): (columns, rows); the source reads tiles[0], so it needs a column. */
    function GetDimension(): (r: Coord)
      requires tiles.Length0 > 0
      ensures r.x > 0 && r.y >= 0
      ensures forall c :: InGrid(c, r) <==> 0 <= c.x < tiles.Length0 && 0 <= c.y < tiles.Length1
    {
      Dimension()
    }

    /** getTileSize(): the size of the tile at [0][0], which all tiles share. */
    function GetTileSize(): (r: Coord)
      reads this, tiles
      requires HasFirstTile()
      ensures Uniform() ==> forall i, j :: 0 <= i < tiles.Length0 && 0 <= j < tiles.Length1 && tiles[i, j] != null ==>
                tiles[i, j].size == r
    {
      tiles[0, 0].size
    }

    /** getSize(): the pixel size, columns times tile width by rows times tile height. */
    function GetSize(): (r: Coord)
      reads this, tiles
      requires HasFirstTile()
      ensures r.x == GetDimension().x * GetTileSize().x && r.y == GetDimension().y * GetTileSize().y
    {
      Coord(tiles.Length0 * tiles[0, 0].size.x, tiles.Length1 * tiles[0, 0].size.y)
    }

    /**
     * getLoadedTiles(): a new array of the same shape holding the loaded
     * tiles and null elsewhere.  Every cell must hold a tile (the source
     * calls isLoaded on each) and there must be a column (it reads tiles[0]).
     */
    method GetLoadedTiles() returns (result: array2<Tile?>)
      requires Full() && tiles.Length0 > 0
      ensures fresh(result)
      ensures result.Length0 == tiles.Length0 && result.Length1 == tiles.Length1
      ensures forall i, j :: 0 <= i < tiles.Length0 && 0 <= j < tiles.Length1 ==>
                result[i, j] == (if tiles[i, j].IsLoaded() then tiles[i, j] else null)
    {
      result := new Tile?[tiles.Length0, tiles.Length1];
      var i := 0;
      while i < result.Length0
        invariant 0 <= i <= result.Length0
        invariant forall a, b :: 0 <= a < i && 0 <= b < result.Length1 ==>
                    result[a, b] == (if tiles[a, b].IsLoaded() then tiles[a, b] else null)
      {
        var j := 0;
        while j < result.Length1
          invariant 0 <= j <= result.Length1
          invariant forall a, b :: 0 <= a < i && 0 <= b < result.Length1 ==>
                      result[a, b] == (if tiles[a, b].IsLoaded() then tiles[a, b] else null)
          invariant forall b :: 0 <= b < j ==>
                      result[i, b] == (if tiles[i, b].IsLoaded() then tiles[i, b] else null)
        {
          if !tiles[i, j].IsLoaded() {
            result[i, j] := null;
          } else {
            result[i, j] := tiles[i, j];
          }
          j := j + 1;
        }
        i := i + 1;
      }
    }
  }
}
