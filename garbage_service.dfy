/**
 * TileGarbageService.java: before a tile is loaded and memory is low, the
 * loaded tile farthest from it is unloaded again.  The farthest tile is
 * found by one scan over the loaded-tiles snapshot of the map, x outer and
 * y inner, keeping the best gap so far and replacing it only on a strictly
 * larger one.
 */
module GarbageCollection {
  import opened Wrappers
  import opened Coordinates
  import opened Tools
  import opened Tiles
  import opened TileMaps
  import opened Views

  /**
   * The gap between the tile to load and cell p, squared: the source takes
   * calculateVectorLength of (tilePos - p), whose square root does not
   * change which gap is larger.
   */
  function Gap(tilePos: Coord, p: Coord): (r: int)
    ensures r >= 0
    ensures r == 0 <==> p == tilePos
  {
    GapZero(tilePos, p);
    SquaredLength(Coord(tilePos.x - p.x, tilePos.y - p.y))
  }

  lemma GapZero(tilePos: Coord, p: Coord)
    ensures SquaredLength(Coord(tilePos.x - p.x, tilePos.y - p.y)) == 0 <==> p == tilePos
  {
    var d := Coord(tilePos.x - p.x, tilePos.y - p.y);
    assert d == Coord(0, 0) <==> p == tilePos;
  }

  /** Cell p of the map holds a tile whose image is loaded. */
  ghost predicate Loaded(m: TileMap, p: Coord)
    reads m, m.tiles, m.TileObjects()
  {
    InGrid(p, m.Dimension()) && m.tiles[p.x, p.y] != null && m.tiles[p.x, p.y].IsLoaded()
  }

  /**
   * r is what the scan has chosen once it has looked at every cell before
   * `stop`: the loaded tile with the largest non-zero gap, the first one in
   * scan order among equal gaps, or nothing while every loaded tile seen
   * lies at gap 0.
   */
  ghost predicate ChosenBefore(m: TileMap, tilePos: Coord, stop: Coord, r: Option<Coord>)
    reads m, m.tiles, m.TileObjects()
  {
    match r
    case None =>
      forall q :: Loaded(m, q) && ScanBefore(q, stop) ==> Gap(tilePos, q) == 0
    case Some(p) =>
      Loaded(m, p) && ScanBefore(p, stop) && Gap(tilePos, p) > 0 &&
      (forall q :: Loaded(m, q) && ScanBefore(q, stop) ==> Gap(tilePos, q) <= Gap(tilePos, p)) &&
      (forall q :: Loaded(m, q) && ScanBefore(q, p) ==> Gap(tilePos, q) < Gap(tilePos, p))
  }

  /** The choice over the whole map. */
  ghost predicate MostDistant(m: TileMap, tilePos: Coord, r: Option<Coord>)
    reads m, m.tiles, m.TileObjects()
  {
    ChosenBefore(m, tilePos, Coord(m.tiles.Length0, 0), r)
  }

  /** The choice is a function of the map and the tile to load. */
  lemma MostDistantUnique(m: TileMap, tilePos: Coord, r1: Option<Coord>, r2: Option<Coord>)
    requires MostDistant(m, tilePos, r1) && MostDistant(m, tilePos, r2)
    ensures r1 == r2
  {
    if r1 != r2 {
      if r1.Some? && r2.Some? {
        if ScanBefore(r1.value, r2.value) {
          assert false;
        } else {
          assert false;
        }
      } else {
        assert false;
      }
    }
  }

  /** Nothing is unloaded exactly when every loaded tile is the tile to load. */
  lemma MostDistantNone(m: TileMap, tilePos: Coord, r: Option<Coord>)
    requires MostDistant(m, tilePos, r)
    ensures r.None? <==> forall q :: Loaded(m, q) ==> q == tilePos
  {
    if r.None? {
      forall q | Loaded(m, q)
        ensures q == tilePos
      {
        assert ScanBefore(q, Coord(m.tiles.Length0, 0));
      }
    }
  }

  /** `loaded` is what getLoadedTiles returns for m: the loaded tiles in place, null elsewhere. */
  ghost predicate IsLoadedSnapshot(m: TileMap, loaded: array2<Tile?>)
    reads m, m.tiles, m.TileObjects(), loaded
  {
    loaded.Length0 == m.tiles.Length0 && loaded.Length1 == m.tiles.Length1 &&
    forall i, j :: 0 <= i < loaded.Length0 && 0 <= j < loaded.Length1 ==>
      loaded[i, j] == (if Loaded(m, Coord(i, j)) then m.tiles[i, j] else null)
  }

  /** The largest gap the scan has kept: 0 before any tile is chosen. */
  function BestGap(tilePos: Coord, r: Option<Coord>): int
  {
    if r.Some? then Gap(tilePos, r.value) else 0
  }

  /** A cell that does not beat the best gap leaves the choice as it is. */
  lemma ChosenSkip(m: TileMap, tilePos: Coord, x: int, y: int, r: Option<Coord>)
    requires ChosenBefore(m, tilePos, Coord(x, y), r)
    requires !Loaded(m, Coord(x, y)) || Gap(tilePos, Coord(x, y)) <= BestGap(tilePos, r)
    ensures ChosenBefore(m, tilePos, Coord(x, y + 1), r)
  {
  }

  /** A loaded cell with a strictly larger gap becomes the choice. */
  lemma ChosenTake(m: TileMap, tilePos: Coord, x: int, y: int, r: Option<Coord>)
    requires ChosenBefore(m, tilePos, Coord(x, y), r)
    requires Loaded(m, Coord(x, y)) && Gap(tilePos, Coord(x, y)) > BestGap(tilePos, r)
    ensures ChosenBefore(m, tilePos, Coord(x, y + 1), Some(Coord(x, y)))
  {
  }

  /** After the last row of column x the scan goes on with column x + 1. */
  lemma ChosenNextColumn(m: TileMap, tilePos: Coord, x: int, r: Option<Coord>)
    requires ChosenBefore(m, tilePos, Coord(x, m.tiles.Length1), r)
    ensures ChosenBefore(m, tilePos, Coord(x + 1, 0), r)
  {
  }

  /**
   * The scan of cleanIfNecessary over the snapshot: the gap starts at 0 and
   * is replaced only by a strictly larger one.
   */
  method ChooseMostDistant(ghost m: TileMap, loaded: array2<Tile?>, tilePos: Coord) returns (r: Option<Coord>)
    requires IsLoadedSnapshot(m, loaded)
    ensures MostDistant(m, tilePos, r)
  {
    var maxGap := 0;
    r := None;
    var x := 0;
    while x < loaded.Length0
      invariant 0 <= x <= loaded.Length0
      invariant ChosenBefore(m, tilePos, Coord(x, 0), r)
      invariant maxGap == BestGap(tilePos, r)
    {
      r, maxGap := ScanColumn(m, loaded, tilePos, x, r, maxGap);
      ChosenNextColumn(m, tilePos, x, r);
      x := x + 1;
    }
  }

  /** The inner loop of the scan: column x, row by row. */
  method ScanColumn(ghost m: TileMap, loaded: array2<Tile?>, tilePos: Coord, x: int, r0: Option<Coord>, maxGap0: int)
    returns (r: Option<Coord>, maxGap: int)
    requires IsLoadedSnapshot(m, loaded) && 0 <= x < loaded.Length0
    requires ChosenBefore(m, tilePos, Coord(x, 0), r0) && maxGap0 == BestGap(tilePos, r0)
    ensures ChosenBefore(m, tilePos, Coord(x, loaded.Length1), r) && maxGap == BestGap(tilePos, r)
  {
    r, maxGap := r0, maxGap0;
    var y := 0;
    while y < loaded.Length1
      invariant 0 <= y <= loaded.Length1
      invariant ChosenBefore(m, tilePos, Coord(x, y), r)
      invariant maxGap == BestGap(tilePos, r)
    {
      assert loaded[x, y] != null <==> Loaded(m, Coord(x, y));
      if loaded[x, y] != null && Gap(tilePos, Coord(x, y)) > maxGap {
        ChosenTake(m, tilePos, x, y, r);
        maxGap := Gap(tilePos, Coord(x, y));
        r := Some(Coord(x, y));
      } else {
        ChosenSkip(m, tilePos, x, y, r);
      }
      y := y + 1;
    }
  }

  /**
   * cleanIfNecessary(tileMapView, tilePos): when memory is low, the view of
   * the chosen tile goes back to the placeholder and the tile forgets its
   * image; nothing else changes.  The view is looked up at the tile's true
   * child index (ChildIndex); CleanIfNecessaryAsWritten below looks it up
   * with convertMatrixPos2Int, as the source does.
   */
  method CleanIfNecessary(view: TileMapView, tilePos: Coord, lowMemory: bool) returns (evicted: Option<Coord>)
    requires lowMemory ==> view.tileMap.Full() && view.tileMap.tiles.Length0 > 0 && view.Laid()
    modifies view.tileMap.TileObjects(), view.children
    ensures !lowMemory ==> evicted == None
    ensures lowMemory ==> old(MostDistant(view.tileMap, tilePos, evicted))
    ensures evicted.Some? ==>
              var p := evicted.value;
              var dim := view.tileMap.Dimension();
              var tile := view.tileMap.tiles[p.x, p.y];
              InGrid(p, dim) && tile != null && old(tile.IsLoaded()) && !tile.IsLoaded() &&
              0 <= ChildIndex(p, dim) < |view.children| &&
              view.children[ChildIndex(p, dim)].tile == tile &&
              view.children[ChildIndex(p, dim)].bitmap == None
    ensures forall t :: t in old(view.tileMap.TileObjects()) ==>
              t.image == old(t.image) ||
              (evicted.Some? && t == view.tileMap.tiles[evicted.value.x, evicted.value.y])
    ensures forall i :: 0 <= i < |view.children| ==>
              view.children[i].tile == old(view.children[i].tile) &&
              (view.children[i].bitmap == old(view.children[i].bitmap) ||
               (evicted.Some? && view.children[i] == view.children[ChildIndex(evicted.value, view.tileMap.Dimension())]))
  {
    evicted := None;
    if lowMemory {
      var m := view.tileMap;
      var loaded := m.GetLoadedTiles();
      assert IsLoadedSnapshot(m, loaded);
      evicted := ChooseMostDistant(m, loaded, tilePos);
      if evicted.Some? {
        var p := evicted.value;
        var tileView := view.children[ChildIndex(p, m.Dimension())];
        tileView.SetImageBitmap(None);
        var tile := loaded[p.x, p.y];
        tile.Forget();
      }
    }
  }

  /** What cleanIfNecessary as written did. */
  datatype Cleaning =
    | Skipped
      /** The tile at pos forgot its image, and child view number `child` was cleared. */
    | Cleared(pos: Coord, child: nat)
      /** getChildAt found no view for pos, so setImageBitmap threw before forget(). */
    | NoView(pos: Coord)
  {
    function Chosen(): Option<Coord>
    {
      if Skipped? then None else Some(pos)
    }
  }

  /**
   * cleanIfNecessary exactly as written: the view is looked up at
   * convertMatrixPos2Int(pos, dimension) = x * dim.x + y.  The cleared view
   * belongs to cell ChildPos of that index, which is pos itself only when the
   * two indices agree; an index past the last child gives no view, and the
   * NullPointerException that follows leaves every tile and view unchanged.
   */
  method CleanIfNecessaryAsWritten(view: TileMapView, tilePos: Coord, lowMemory: bool) returns (r: Cleaning)
    requires lowMemory ==> view.tileMap.Full() && view.tileMap.tiles.Length0 > 0 && view.Laid()
    modifies view.tileMap.TileObjects(), view.children
    ensures !lowMemory ==> r == Skipped
    ensures lowMemory ==> old(MostDistant(view.tileMap, tilePos, r.Chosen()))
    ensures r.Cleared? ==>
              var dim := view.tileMap.Dimension();
              var tile := view.tileMap.tiles[r.pos.x, r.pos.y];
              InGrid(r.pos, dim) && tile != null && old(tile.IsLoaded()) && !tile.IsLoaded() &&
              r.child == ConvertMatrixPos2Int(r.pos, dim) < |view.children| &&
              view.children[r.child].bitmap == None &&
              InGrid(ChildPos(r.child, dim), dim) &&
              view.children[r.child].tile == view.tileMap.tiles[ChildPos(r.child, dim).x, ChildPos(r.child, dim).y]
    ensures r.NoView? ==>
              InGrid(r.pos, view.tileMap.Dimension()) &&
              ConvertMatrixPos2Int(r.pos, view.tileMap.Dimension()) >= |view.children|
    ensures forall t :: t in old(view.tileMap.TileObjects()) ==>
              t.image == old(t.image) ||
              (r.Cleared? && t == view.tileMap.tiles[r.pos.x, r.pos.y])
    ensures forall i :: 0 <= i < |view.children| ==>
              view.children[i].tile == old(view.children[i].tile) &&
              (view.children[i].bitmap == old(view.children[i].bitmap) ||
               (r.Cleared? && view.children[i] == view.children[r.child]))
  {
    r := Skipped;
    if lowMemory {
      var m := view.tileMap;
      var loaded := m.GetLoadedTiles();
      assert IsLoadedSnapshot(m, loaded);
      var chosen := ChooseMostDistant(m, loaded, tilePos);
      assert old(MostDistant(m, tilePos, chosen));
      if chosen.Some? {
        var p := chosen.value;
        var dim := m.Dimension();
        MulMonotone(0, p.x, dim.x);
        var k := ConvertMatrixPos2Int(p, dim);
        if k < |view.children| {
          ChildPosInverse(k, dim);
          var tileView := view.children[k];
          tileView.SetImageBitmap(None);
          var tile := loaded[p.x, p.y];
          tile.Forget();
          r := Cleared(p, k);
        } else {
          r := NoView(p);
        }
      }
      assert r.Chosen() == chosen;
    }
  }

  /**
   * On a 2 x 3 map, evicting tile (1, 0) as written clears the view of tile
   * (0, 2), which stays loaded.
   */
  lemma AsWrittenClearsOtherView(view: TileMapView)
    requires view.Laid() && view.tileMap.Dimension() == Coord(2, 3)
    ensures ChildPos(ConvertMatrixPos2Int(Coord(1, 0), Coord(2, 3)), Coord(2, 3)) == Coord(0, 2)
    ensures ConvertMatrixPos2Int(Coord(1, 0), Coord(2, 3)) < |view.children|
    ensures view.children[ConvertMatrixPos2Int(Coord(1, 0), Coord(2, 3))].tile == view.tileMap.tiles[0, 2]
  {
    assert InGrid(Coord(0, 2), view.tileMap.Dimension());
  }

  /** On a 3 x 2 map, evicting tile (2, 1) as written finds no view, so nothing is evicted. */
  lemma AsWrittenMissesView(view: TileMapView)
    requires view.Laid() && view.tileMap.Dimension() == Coord(3, 2)
    ensures InGrid(Coord(2, 1), view.tileMap.Dimension())
    ensures ConvertMatrixPos2Int(Coord(2, 1), Coord(3, 2)) >= |view.children|
  {
  }
}
