/**
 * DrawingCreator.java: builds a Drawing from the description of its zoom
 * levels.  Each level has a grid dimension (columns, rows), a tile size in
 * pixels and a scale factor; the PNG of every tile comes from exactly one of
 * three sources: one image for the whole drawing, one image per level, or
 * one image per tile.
 */
module DrawingCreation {
  import opened Wrappers
  import opened Coordinates
  import opened Tiles
  import opened TileMaps
  import opened Drawings
  import opened Tools

  /** A URI[][] indexed [x][y]; Java's arrays of arrays may be ragged. */
  type UriGrid = seq<seq<Uri>>

  /**
   * DemoDrawingFrame: the description a drawing is created from.  A null
   * field of the source is `None` here.
   */
  datatype DrawingFrame = DrawingFrame(
    countZoomLevels: int,
    scaleFactors: seq<real>,
    tileSizes: seq<Coord>,
    levelDimensions: seq<Coord>,
    pngFileSingle: Option<Uri>,
    pngFileEachTileMap: Option<seq<Uri>>,
    pngFileEachTile: Option<seq<UriGrid>>,
    defects: seq<Defect>)

  /** The level count matches both list sizes (the scale factors are not checked). */
  predicate CountsAgree(f: DrawingFrame)
  {
    f.countZoomLevels == |f.tileSizes| && f.countZoomLevels == |f.levelDimensions|
  }

  /** Exactly one of the three PNG sources is given. */
  predicate OneSource(f: DrawingFrame)
  {
    || (f.pngFileSingle.Some? && f.pngFileEachTileMap.None? && f.pngFileEachTile.None?)
    || (f.pngFileSingle.None? && f.pngFileEachTileMap.Some? && f.pngFileEachTile.None?)
    || (f.pngFileSingle.None? && f.pngFileEachTileMap.None? && f.pngFileEachTile.Some?)
  }

  /** The frames createDrawing does not reject with null. */
  predicate Accepted(f: DrawingFrame)
  {
    CountsAgree(f) && OneSource(f)
  }

  /** `g` has a URI at every cell of a dims.x by dims.y grid. */
  predicate Covers(g: UriGrid, dims: Coord)
  {
    |g| >= dims.x && forall x :: 0 <= x < dims.x ==> |g[x]| >= dims.y
  }

  /**
   * What an accepted frame must satisfy for createDrawing not to throw: it
   * reads level 1, a scale factor and a PNG source entry for every level, the
   * tile at [0][0] of every map (getSize), and pngFile[x][y] for every cell.
   */
  predicate Demands(f: DrawingFrame)
    requires CountsAgree(f)
  {
    && f.countZoomLevels >= 2
    && |f.scaleFactors| >= f.countZoomLevels
    && (forall i :: 0 <= i < f.countZoomLevels ==> f.levelDimensions[i].x > 0 && f.levelDimensions[i].y > 0)
    && (f.pngFileEachTileMap.Some? ==> |f.pngFileEachTileMap.value| >= f.countZoomLevels)
    && (f.pngFileEachTile.Some? ==>
          |f.pngFileEachTile.value| >= f.countZoomLevels &&
          forall i :: 0 <= i < f.countZoomLevels ==> Covers(f.pngFileEachTile.value[i], f.levelDimensions[i]))
  }

  /** The PNG of tile [x][y] of level i under the frame's one source. */
  function LevelUri(f: DrawingFrame, i: int, x: int, y: int): Uri
    requires Accepted(f) && Demands(f) && 0 <= i < f.countZoomLevels
    requires 0 <= x < f.levelDimensions[i].x && 0 <= y < f.levelDimensions[i].y
  {
    if f.pngFileSingle.Some? then f.pngFileSingle.value
    else if f.pngFileEachTileMap.Some? then f.pngFileEachTileMap.value[i]
    else f.pngFileEachTile.value[i][x][y]
  }

  /** `g` holds the PNGs of level i. */
  predicate GridOfLevel(f: DrawingFrame, i: int, g: UriGrid)
    requires Accepted(f) && Demands(f) && 0 <= i < f.countZoomLevels
  {
    var dims := f.levelDimensions[i];
    Covers(g, dims) &&
    forall x, y :: 0 <= x < dims.x && 0 <= y < dims.y ==> g[x][y] == LevelUri(f, i, x, y)
  }

  /** The pixel size of level i: its dimension times its tile size, per axis. */
  function LevelSize(f: DrawingFrame, i: int): Coord
    requires 0 <= i < |f.levelDimensions| && i < |f.tileSizes|
  {
    Coord(f.levelDimensions[i].x * f.tileSizes[i].x, f.levelDimensions[i].y * f.tileSizes[i].y)
  }

  /** The size the drawing is first shown at: that of level 1, the level of scale 1. */
  function InitialSize(f: DrawingFrame): Coord
    requires 1 < |f.levelDimensions| && 1 < |f.tileSizes|
  {
    LevelSize(f, 1)
  }

  /** The last of the first n levels whose pixel size is `target`, or -1. */
  function LastLevelOfSize(f: DrawingFrame, n: int, target: Coord): (k: int)
    requires 0 <= n <= |f.levelDimensions| && n <= |f.tileSizes|
    ensures -1 <= k < n
    ensures k >= 0 ==> LevelSize(f, k) == target
    ensures forall j :: k < j < n ==> LevelSize(f, j) != target
    ensures k == -1 <==> forall j :: 0 <= j < n ==> LevelSize(f, j) != target
  {
    if n == 0 then -1
    else if LevelSize(f, n - 1) == target then n - 1
    else LastLevelOfSize(f, n - 1, target)
  }

  /** The level createDrawing makes active: the last one as large as level 1. */
  function ActiveLevel(f: DrawingFrame): (k: int)
    requires Accepted(f) && Demands(f)
    ensures 1 <= k < f.countZoomLevels
    ensures LevelSize(f, k) == InitialSize(f)
    ensures forall j :: k < j < f.countZoomLevels ==> LevelSize(f, j) != InitialSize(f)
  {
    LastLevelOfSize(f, f.countZoomLevels, InitialSize(f))
  }

  /**
   * The demonstration frame: three levels of 200 by 200 pixel tiles, 10, 20
   * and 40 tiles square; the drawing starts at level 1, 4000 pixels square.
   */
  lemma DemoFrameStartsAtLevelOne(f: DrawingFrame)
    requires f.countZoomLevels == 3 && f.scaleFactors == [0.5, 1.0, 2.0]
    requires f.tileSizes == [Coord(200, 200), Coord(200, 200), Coord(200, 200)]
    requires f.levelDimensions == [Coord(10, 10), Coord(20, 20), Coord(40, 40)]
    requires f.pngFileSingle.None? && f.pngFileEachTile.None?
    requires f.pngFileEachTileMap.Some? && |f.pngFileEachTileMap.value| == 3
    ensures Accepted(f) && Demands(f)
    ensures InitialSize(f) == Coord(4000, 4000)
    ensures ActiveLevel(f) == 1
  {
    assert LevelSize(f, 2) == Coord(8000, 8000);
  }

  /** A tile map built for level i of the frame. */
  ghost predicate BuiltLevel(m: TileMap, f: DrawingFrame, i: int)
    requires Accepted(f) && Demands(f) && 0 <= i < f.countZoomLevels
    reads m, m.tiles, m.TileObjects()
  {
    && m.Dimension() == f.levelDimensions[i]
    && m.scaleFactor == f.scaleFactors[i]
    && m.Full()
    && forall x, y :: 0 <= x < m.tiles.Length0 && 0 <= y < m.tiles.Length1 ==>
         m.tiles[x, y].size == f.tileSizes[i] && m.tiles[x, y].filename == LevelUri(f, i, x, y) &&
         !m.tiles[x, y].IsLoaded()
  }

  /** Built levels have the pixel size LevelSize gives them. */
  lemma BuiltLevelSize(m: TileMap, f: DrawingFrame, i: int)
    requires Accepted(f) && Demands(f) && 0 <= i < f.countZoomLevels
    requires BuiltLevel(m, f, i)
    ensures m.HasFirstTile() && m.Uniform()
    ensures m.GetSize() == LevelSize(f, i)
  {
    assert m.tiles[0, 0].size == f.tileSizes[i];
  }

  /**
   * The two loops that fill a URI[][] with one URI: dims.x columns of
   * dims.y copies.
   */
  method UniformGrid(dims: Coord, u: Uri) returns (g: UriGrid)
    requires dims.x >= 0 && dims.y >= 0
    ensures |g| == dims.x
    ensures forall x :: 0 <= x < dims.x ==> |g[x]| == dims.y && forall y :: 0 <= y < dims.y ==> g[x][y] == u
  {
    g := [];
    var x := 0;
    while x < dims.x
      invariant 0 <= x <= dims.x && |g| == x
      invariant forall a :: 0 <= a < x ==> |g[a]| == dims.y && forall y :: 0 <= y < dims.y ==> g[a][y] == u
    {
      var column: seq<Uri> := [];
      var y := 0;
      while y < dims.y
        invariant 0 <= y <= dims.y && |column| == y
        invariant forall b :: 0 <= b < y ==> column[b] == u
      {
        column := column + [u];
        y := y + 1;
      }
      g := g + [column];
      x := x + 1;
    }
  }

  /**
   * The loops of the single-image and per-level modes: for each of the first
   * n levels a URI[][] of its dimension filled with that level's URI.
   */
  method UniformGrids(dims: seq<Coord>, uris: seq<Uri>, n: int) returns (grids: seq<UriGrid>)
    requires 0 <= n <= |dims| && n <= |uris|
    requires forall i :: 0 <= i < n ==> dims[i].x >= 0 && dims[i].y >= 0
    ensures |grids| == n
    ensures forall i :: 0 <= i < n ==>
              Covers(grids[i], dims[i]) &&
              forall x, y :: 0 <= x < dims[i].x && 0 <= y < dims[i].y ==> grids[i][x][y] == uris[i]
  {
    grids := [];
    var i := 0;
    while i < n
      invariant 0 <= i <= n && |grids| == i
      invariant forall l :: 0 <= l < i ==>
                  Covers(grids[l], dims[l]) &&
                  forall x, y :: 0 <= x < dims[l].x && 0 <= y < dims[l].y ==> grids[l][x][y] == uris[l]
    {
      var files := UniformGrid(dims[i], uris[i]);
      grids := grids + [files];
      i := i + 1;
    }
  }

  /**
   * The PNG-source branch of createDrawing: the URI[][] of every level when
   * exactly one source is given, none (createDrawing returns null) otherwise.
   */
  method PngFiles(f: DrawingFrame) returns (r: Option<seq<UriGrid>>)
    requires CountsAgree(f) && (OneSource(f) ==> Demands(f))
    ensures r.None? <==> !OneSource(f)
    ensures r.Some? ==>
              |r.value| >= f.countZoomLevels &&
              forall i :: 0 <= i < f.countZoomLevels ==> GridOfLevel(f, i, r.value[i])
  {
    var pngFiles: seq<UriGrid>;
    if f.pngFileSingle.Some? && f.pngFileEachTileMap.None? && f.pngFileEachTile.None? {
      pngFiles := UniformGrids(f.levelDimensions, seq(f.countZoomLevels, _ => f.pngFileSingle.value), f.countZoomLevels);
    } else if f.pngFileSingle.None? && f.pngFileEachTileMap.Some? && f.pngFileEachTile.None? {
      pngFiles := UniformGrids(f.levelDimensions, f.pngFileEachTileMap.value, f.countZoomLevels);
    } else if f.pngFileSingle.None? && f.pngFileEachTileMap.None? && f.pngFileEachTile.Some? {
      pngFiles := f.pngFileEachTile.value;
    } else {
      return None;
    }
    return Some(pngFiles);
  }

  /**
   * createDrawing(frame): null when the level count does not match the
   * tile size and dimension lists, or when not exactly one PNG source is
   * given.  Otherwise a new drawing of initial size InitialSize(frame), with
   * the frame's defects and one new tile map per level, in level order,
   * built for that level; the active map is that of ActiveLevel(frame), the
   * last level as large as level 1.
   */
  method CreateDrawing(f: DrawingFrame) returns (drawing: Drawing?)
    requires Accepted(f) ==> Demands(f)
    ensures drawing == null <==> !Accepted(f)
    ensures drawing != null ==>
              && fresh(drawing)
              && drawing.initialSize == InitialSize(f) && drawing.defects == f.defects
              && |drawing.tileMaps| == f.countZoomLevels
              && (forall i :: 0 <= i < f.countZoomLevels ==>
                    fresh(drawing.tileMaps[i]) && BuiltLevel(drawing.tileMaps[i], f, i))
              && (forall i, j :: 0 <= i < j < f.countZoomLevels ==> drawing.tileMaps[i] != drawing.tileMaps[j])
              && drawing.activeTileMap == drawing.tileMaps[ActiveLevel(f)]
  {
    if !(f.countZoomLevels == |f.tileSizes| && f.countZoomLevels == |f.levelDimensions|) {
      return null;
    }
    var pngFiles := PngFiles(f);
    if pngFiles.None? {
      return null;
    }
    var dimension := f.levelDimensions[1];
    var tileSize := f.tileSizes[1];
    var initialSize := Coord(dimension.x * tileSize.x, dimension.y * tileSize.y);
    drawing := new Drawing.Sized(initialSize);
    drawing.SetDefects(f.defects);
    AddLevels(drawing, f, pngFiles.value);
  }

  /** The loop of createDrawing: one tile map per level, the active one chosen by size. */
  method AddLevels(drawing: Drawing, f: DrawingFrame, pngFiles: seq<UriGrid>)
    requires Accepted(f) && Demands(f)
    requires drawing.tileMaps == [] && drawing.activeTileMap == null && drawing.initialSize == InitialSize(f)
    requires |pngFiles| >= f.countZoomLevels
    requires forall i :: 0 <= i < f.countZoomLevels ==> GridOfLevel(f, i, pngFiles[i])
    modifies drawing
    ensures drawing.initialSize == old(drawing.initialSize) && drawing.defects == old(drawing.defects)
    ensures |drawing.tileMaps| == f.countZoomLevels
    ensures forall i :: 0 <= i < f.countZoomLevels ==>
              fresh(drawing.tileMaps[i]) && BuiltLevel(drawing.tileMaps[i], f, i)
    ensures forall i, j :: 0 <= i < j < f.countZoomLevels ==> drawing.tileMaps[i] != drawing.tileMaps[j]
    ensures drawing.activeTileMap == drawing.tileMaps[ActiveLevel(f)]
  {
    var i := 0;
    while i < f.countZoomLevels
      invariant 0 <= i <= f.countZoomLevels
      invariant drawing.initialSize == old(drawing.initialSize) && drawing.defects == old(drawing.defects)
      invariant |drawing.tileMaps| == i
      invariant forall l :: 0 <= l < i ==> fresh(drawing.tileMaps[l]) && BuiltLevel(drawing.tileMaps[l], f, l)
      invariant forall l, j :: 0 <= l < j < i ==> drawing.tileMaps[l] != drawing.tileMaps[j]
      invariant LastLevelOfSize(f, i, InitialSize(f)) == -1 ==> drawing.activeTileMap == null
      invariant LastLevelOfSize(f, i, InitialSize(f)) >= 0 ==>
                  drawing.activeTileMap == drawing.tileMaps[LastLevelOfSize(f, i, InitialSize(f))]
    {
      var tileMap := AddLevel(drawing, f, pngFiles, i);
      i := i + 1;
    }
  }

  /** One pass of createDrawing's loop: build level i, append it, make it active if as large as level 1. */
  method AddLevel(drawing: Drawing, f: DrawingFrame, pngFiles: seq<UriGrid>, i: int) returns (tileMap: TileMap)
    requires Accepted(f) && Demands(f) && 0 <= i < f.countZoomLevels
    requires drawing.initialSize == InitialSize(f)
    requires i < |pngFiles| && GridOfLevel(f, i, pngFiles[i])
    modifies drawing
    ensures fresh(tileMap) && BuiltLevel(tileMap, f, i)
    ensures drawing.tileMaps == old(drawing.tileMaps) + [tileMap]
    ensures drawing.activeTileMap == if LevelSize(f, i) == InitialSize(f) then tileMap else old(drawing.activeTileMap)
    ensures drawing.initialSize == old(drawing.initialSize) && drawing.defects == old(drawing.defects)
  {
    tileMap := CreateTileMap(f.levelDimensions[i], f.tileSizes[i], f.scaleFactors[i], pngFiles[i]);
    drawing.AddTileMap(tileMap);
    assert BuiltLevel(tileMap, f, i);
    BuiltLevelSize(tileMap, f, i);
    if tileMap.GetSize() == drawing.initialSize {
      drawing.SetActiveTileMap(tileMap);
    }
  }

  /**
   * createTileMap(dimension, size, scaleFactor, pngFile): a new tile map
   * whose cell [x][y] holds a new, unloaded tile of the given size showing
   * pngFile[x][y], a different tile in every cell.  Tiles are added column
   * by column, the order in which addTile finds free cells, so each lands
   * at the cell its URI came from.
   */
  method CreateTileMap(dimension: Coord, size: Coord, scaleFactor: real, pngFile: UriGrid) returns (m: TileMap)
    requires dimension.x >= 0 && dimension.y >= 0
    requires Covers(pngFile, dimension)
    ensures fresh(m) && fresh(m.tiles)
    ensures m.Dimension() == dimension && m.scaleFactor == scaleFactor && m.Full()
    ensures forall x, y :: 0 <= x < dimension.x && 0 <= y < dimension.y ==>
              fresh(m.tiles[x, y]) && !m.tiles[x, y].IsLoaded() &&
              m.tiles[x, y].size == size && m.tiles[x, y].filename == pngFile[x][y]
    ensures DistinctTiles(m)
  {
    m := new TileMap(dimension, scaleFactor);
    ghost var owner: map<Tile, Coord> := map[];
    var x := 0;
    while x < dimension.x
      invariant 0 <= x <= dimension.x
      invariant Filled(m, size, pngFile, owner, x, 0) && FreeFrom(m, x, 0)
      invariant forall t :: t in owner ==> fresh(t)
      invariant forall t :: t in owner ==> !t.IsLoaded()
    {
      owner := FillColumn(m, size, pngFile, owner, x);
      x := x + 1;
    }
    AllFilled(m, size, pngFile, owner);
  }

  /** The inner loop of createTileMap: column x, cell by cell from y = 0. */
  method FillColumn(m: TileMap, size: Coord, pngFile: UriGrid, ghost owner: map<Tile, Coord>, x: int)
    returns (ghost owner': map<Tile, Coord>)
    requires 0 <= x < m.tiles.Length0 && x < |pngFile| && m.tiles.Length1 <= |pngFile[x]|
    requires Filled(m, size, pngFile, owner, x, 0) && FreeFrom(m, x, 0)
    requires forall t :: t in owner ==> !t.IsLoaded()
    modifies m.tiles
    ensures Filled(m, size, pngFile, owner', x + 1, 0) && FreeFrom(m, x + 1, 0)
    ensures forall t :: t in owner' ==> t in owner || fresh(t)
    ensures forall t :: t in owner' ==> !t.IsLoaded()
  {
    owner' := owner;
    var y := 0;
    while y < m.tiles.Length1
      invariant 0 <= y <= m.tiles.Length1
      invariant Filled(m, size, pngFile, owner', x, y) && FreeFrom(m, x, y)
      invariant forall t :: t in owner' ==> t in owner || fresh(t)
      invariant forall t :: t in owner' ==> !t.IsLoaded()
    {
      owner' := AddNextTile(m, size, pngFile, owner', x, y);
      y := y + 1;
    }
    ColumnDone(m, size, pngFile, owner', x);
  }

  /**
   * One step of createTileMap: tileMap.addTile(new Tile(size, pngFile[x][y]))
   * fills cell (x, y), the next one in column order.
   */
  method AddNextTile(m: TileMap, size: Coord, pngFile: UriGrid, ghost owner: map<Tile, Coord>, x: int, y: int)
    returns (ghost owner': map<Tile, Coord>)
    requires 0 <= x < m.tiles.Length0 && 0 <= y < m.tiles.Length1
    requires x < |pngFile| && y < |pngFile[x]|
    requires Filled(m, size, pngFile, owner, x, y) && FreeFrom(m, x, y)
    requires forall t :: t in owner ==> !t.IsLoaded()
    modifies m.tiles
    ensures Filled(m, size, pngFile, owner', x, y + 1) && FreeFrom(m, x, y + 1)
    ensures fresh(m.tiles[x, y]) && !m.tiles[x, y].IsLoaded()
    ensures owner' == owner[m.tiles[x, y] := Coord(x, y)]
    ensures forall t :: t in owner' ==> !t.IsLoaded()
  {
    var tile := new Tile(size, pngFile[x][y]);
    assert forall i, j :: 0 <= i < m.tiles.Length0 && 0 <= j < m.tiles.Length1 ==> m.tiles[i, j] != tile;
    FreeFromFirst(m, size, pngFile, owner, x, y);
    var ok := m.AddTile(tile);
    owner' := owner[tile := Coord(x, y)];
    forall i, j | 0 <= i < m.tiles.Length0 && 0 <= j < m.tiles.Length1 && (i, j) != (x, y)
      ensures m.tiles[i, j] == old(m.tiles[i, j])
    {
      assert Some(Coord(i, j)) != Some(Coord(x, y));
    }
    assert Filled(m, size, pngFile, owner, x, y);
    assert tile !in owner;
    FilledStep(m, size, pngFile, owner, x, y);
  }

  /** Filling cell (x, y) with a new tile of its own extends the filled prefix by that cell. */
  lemma FilledStep(m: TileMap, size: Coord, pngFile: UriGrid, owner: map<Tile, Coord>, x: int, y: int)
    requires 0 <= x < m.tiles.Length0 && 0 <= y < m.tiles.Length1 && x < |pngFile| && y < |pngFile[x]|
    requires Filled(m, size, pngFile, owner, x, y)
    requires m.tiles[x, y] != null && m.tiles[x, y] !in owner
    requires m.tiles[x, y].size == size && m.tiles[x, y].filename == pngFile[x][y]
    ensures Filled(m, size, pngFile, owner[m.tiles[x, y] := Coord(x, y)], x, y + 1)
  {
  }

  /**
   * The cells before (x, y) in column order hold tiles of the given size
   * showing their URIs, each recorded in `owner` as belonging to its cell.
   */
  ghost predicate Filled(m: TileMap, size: Coord, pngFile: UriGrid, owner: map<Tile, Coord>, x: int, y: int)
    reads m, m.tiles
  {
    forall i, j :: 0 <= i < m.tiles.Length0 && 0 <= j < m.tiles.Length1 && ScanBefore(Coord(i, j), Coord(x, y)) ==>
      m.tiles[i, j] != null && m.tiles[i, j].size == size &&
      i < |pngFile| && j < |pngFile[i]| && m.tiles[i, j].filename == pngFile[i][j] &&
      m.tiles[i, j] in owner && owner[m.tiles[i, j]] == Coord(i, j)
  }

  /** The cells from (x, y) on in column order are empty. */
  ghost predicate FreeFrom(m: TileMap, x: int, y: int)
    reads m, m.tiles
  {
    forall i, j :: 0 <= i < m.tiles.Length0 && 0 <= j < m.tiles.Length1 && !ScanBefore(Coord(i, j), Coord(x, y)) ==>
      m.tiles[i, j] == null
  }

  /** No tile object sits in two cells. */
  ghost predicate DistinctTiles(m: TileMap)
    reads m, m.tiles
  {
    forall i, j, i', j' ::
      (0 <= i < m.tiles.Length0 && 0 <= j < m.tiles.Length1 &&
       0 <= i' < m.tiles.Length0 && 0 <= j' < m.tiles.Length1 && (i != i' || j != j')) ==>
      m.tiles[i, j] != m.tiles[i', j']
  }

  /** With the cells before (x, y) filled and the rest empty, addTile picks (x, y). */
  lemma FreeFromFirst(m: TileMap, size: Coord, pngFile: UriGrid, owner: map<Tile, Coord>, x: int, y: int)
    requires 0 <= x < m.tiles.Length0 && 0 <= y < m.tiles.Length1
    requires Filled(m, size, pngFile, owner, x, y) && FreeFrom(m, x, y)
    ensures m.FirstFree() == Some(Coord(x, y))
  {
    m.FirstFreeFromFinds(0, 0, Coord(x, y));
  }

  /** A finished column (x, Y) is the same prefix as (x + 1, 0). */
  lemma ColumnDone(m: TileMap, size: Coord, pngFile: UriGrid, owner: map<Tile, Coord>, x: int)
    requires Filled(m, size, pngFile, owner, x, m.tiles.Length1) && FreeFrom(m, x, m.tiles.Length1)
    ensures Filled(m, size, pngFile, owner, x + 1, 0) && FreeFrom(m, x + 1, 0)
  {
  }

  /**
   * Once every column is filled, every cell holds a tile it owns, and tiles
   * owned by their own cells are distinct.
   */
  lemma AllFilled(m: TileMap, size: Coord, pngFile: UriGrid, owner: map<Tile, Coord>)
    requires Filled(m, size, pngFile, owner, m.tiles.Length0, 0)
    ensures m.Full() && DistinctTiles(m)
    ensures forall i, j :: 0 <= i < m.tiles.Length0 && 0 <= j < m.tiles.Length1 ==>
              m.tiles[i, j] in owner && m.tiles[i, j].size == size &&
              i < |pngFile| && j < |pngFile[i]| && m.tiles[i, j].filename == pngFile[i][j]
  {
    assert forall i, j :: 0 <= i < m.tiles.Length0 && 0 <= j < m.tiles.Length1 ==>
      ScanBefore(Coord(i, j), Coord(m.tiles.Length0, 0));
    forall i, j, i', j' |
      0 <= i < m.tiles.Length0 && 0 <= j < m.tiles.Length1 &&
      0 <= i' < m.tiles.Length0 && 0 <= j' < m.tiles.Length1 && (i != i' || j != j')
      ensures m.tiles[i, j] != m.tiles[i', j']
    {
      assert ScanBefore(Coord(i, j), Coord(m.tiles.Length0, 0));
      assert ScanBefore(Coord(i', j'), Coord(m.tiles.Length0, 0));
    }
  }
}
