# Tile pyramid viewer core, modelled in Dafny

This project models the core of an Android viewer for large building plans.
A plan (a `Drawing`) is a pyramid of zoom levels. Each level is a `TileMap`,
a column-major two-dimensional array of `Tile`s. Each tile names a PNG file
and holds that file's bytes once they are loaded. Around it the model covers:

- the `Viewport`, a window onto the active tile map that is always pushed
  back inside the map;
- the `LazyLoader`, which lists the tiles to load around the tile under the
  screen center, ring by ring in a fixed walk order;
- the `TileGarbageService`, which frees the loaded tile farthest away when
  memory runs low;
- the `BitmapWorkerTask` / `BitmapConverter` pair, which reads a tile's file,
  stores the bytes and shows the decoded bitmap, with a registry of running
  tasks that can all be cancelled;
- the `TileMapChanger`, which switches to the next or previous zoom level and
  re-centres the viewport;
- the `DrawingCreator`, which checks a frame description and builds the
  whole pyramid.

Modules follow the Java classes: `Coordinates` (Coordinate.java), `Tools`,
`Tiles`, `TileMaps`, `Drawings`, `Viewports`, `Views` (the two widgets the
loaders talk to), `LazyLoading`, `GarbageCollection`, `BitmapLoading`,
`Zooming` (TileMapChanger.java) and `DrawingCreation`. `Wrappers` holds
`Option`.

Conventions:

- Java `int` is an unbounded `int`.
- Java `/` on ints is `Tools.JavaDiv`, which truncates toward zero.
- `float` is `real`, and the `(int)` cast is `Tools.Trunc`.
- Java objects that the code updates in place are classes with `modifies`
  clauses. Values that are only compared by value are datatypes: `Coord` is
  what `Coordinate.equals` compares, and `Uri` is a URI.
- Static fields become explicit objects handed to the operations:
  `BitmapLoading.TaskRegistry` is the static `tasks` list, and
  `LazyLoading.LazyLoaderSlot` is the static `lazyLoader`.
- File reading and bitmap decoding are function parameters.
- The memory check is a boolean parameter.
- A cancellation that arrives while a file is being read is a boolean
  parameter.
- A Java exception raised by an invalid argument or state is a
  precondition, not an outcome. This covers division by zero, an index
  outside an array or list, a negative array size and a null dereference.
  Each member this affects has a line under "## Left out". Three exceptions
  are modelled as outcomes instead: the `Error` of a full map, the null
  image in `doInBackground`, and the missing view in
  `GarbageCollection.CleanIfNecessaryAsWritten`.

## Model

| member | source | states |
|---|---|---|
| Coordinates.Offset | src/de/hdm/hettich/studienarbeit/utile/Coordinate.java:107-110 | moving a point by (dx, dy) changes x by exactly dx and y by exactly dy, negative deltas included |
| Coordinates.OffsetUndo | src/de/hdm/hettich/studienarbeit/utile/Coordinate.java:107-110 | `add(dx,dy)` followed by `add(-dx,-dy)` gives back the original point, and `add(0,0)` changes nothing |
| Coordinates.Coordinate.constructor | src/de/hdm/hettich/studienarbeit/utile/Coordinate.java:54-57 | `new Coordinate(x, y)` holds exactly (x, y) |
| Coordinates.Coordinate.Origin | src/de/hdm/hettich/studienarbeit/utile/Coordinate.java:33-35 | the no-argument constructor yields (0, 0) |
| Coordinates.Coordinate.Copy | src/de/hdm/hettich/studienarbeit/utile/Coordinate.java:43-45 | the copy is a new object that `equals` the original and has the same value |
| Coordinates.Coordinate.Equals | src/de/hdm/hettich/studienarbeit/utile/Coordinate.java:96-98 | two coordinates are equal if and only if both x and y agree |
| Coordinates.Coordinate.Add | src/de/hdm/hettich/studienarbeit/utile/Coordinate.java:107-110 | the object itself is moved by (dx, dy) |
| Tools.ConvertMatrixPos2Int | src/de/hdm/hettich/studienarbeit/utile/Tools.java:30-33 | the index `x * dim.x + y` of an in-grid cell is never negative, and on a square grid it is the true child index; ConvertMatrixPos2IntMisroutes and ConvertMatrixPos2IntOverruns show where it goes wrong on other grids |
| Tools.ConvertMatrixPos2IntSquare | src/de/hdm/hettich/studienarbeit/utile/Tools.java:30-33 | on a square n×n grid, the list index of a cell is its true child index and lies in [0, n·n) |
| Tools.ConvertMatrixPos2IntMisroutes | src/de/hdm/hettich/studienarbeit/utile/Tools.java:30-33 | on a 2×3 grid the method sends cell (1, 0) to the child that shows cell (0, 2); the right index is 3 (see Findings) |
| Tools.ConvertMatrixPos2IntOverruns | src/de/hdm/hettich/studienarbeit/utile/Tools.java:30-33 | on a 3×2 grid the in-grid cell (2, 1) gets an index of at least 6, past the last of the 6 children (see Findings) |
| Tools.ChildIndexBounds | src/de/hdm/hettich/studienarbeit/factory/TileMap2ViewFactory.java:65-74 | the child index `x*dim.y + y` of an in-grid cell lies in [0, dim.x·dim.y) |
| Tools.ChildIndexInjective | src/de/hdm/hettich/studienarbeit/factory/TileMap2ViewFactory.java:65-74 | distinct in-grid cells have distinct child indices |
| Tools.ChildPosInverse | src/de/hdm/hettich/studienarbeit/factory/TileMap2ViewFactory.java:65-74 | every index below dim.x·dim.y is the child index of exactly the in-grid cell (k / dim.y, k % dim.y) |
| Tools.ChildIndexInverse | src/de/hdm/hettich/studienarbeit/factory/TileMap2ViewFactory.java:65-74 | turning a cell into its child index and back gives the same cell |
| Tools.ChildIndexFollowsScan | src/de/hdm/hettich/studienarbeit/factory/TileMap2ViewFactory.java:65-74 | one cell comes before another in the x-outer, y-inner layout loop if and only if its child index is smaller |
| Tools.SquaredLength | src/de/hdm/hettich/studienarbeit/utile/Tools.java:42-44 | the squared vector length is never negative and is zero only for (0, 0) |
| Tiles.Tile.constructor | src/de/hdm/hettich/studienarbeit/bo/Tile.java:50-53 | a new tile keeps its size and file name, has no image and is not loaded |
| Tiles.Tile.IsLoaded | src/de/hdm/hettich/studienarbeit/bo/Tile.java:103-108 | a loaded tile has an image, and an empty image array does not count as loaded |
| Tiles.Tile.SetImage | src/de/hdm/hettich/studienarbeit/bo/Tile.java:73-83 | after `setImage(b)`, `getImage()` returns that very array b |
| Tiles.Tile.Forget | src/de/hdm/hettich/studienarbeit/bo/Tile.java:114-116 | afterwards the tile holds no image and is not loaded; size and file name are fixed fields |
| Tiles.Tile.Equals | src/de/hdm/hettich/studienarbeit/bo/Tile.java:125-129 | every tile equals itself, and equal tiles are either both loaded or both not; EqualsComparesImageIdentity shows that images are compared by reference |
| Tiles.EqualsComparesImageIdentity | src/de/hdm/hettich/studienarbeit/bo/Tile.java:125-129 | tiles whose images are different arrays are never equal, even with equal bytes; two tiles without images are equal if and only if their file names and sizes are |
| TileMaps.TileMap.constructor | src/de/hdm/hettich/studienarbeit/bo/TileMap.java:47-50 | a new map has dim.x columns of dim.y empty cells and keeps the scale factor |
| TileMaps.TileMap.FromTiles | src/de/hdm/hettich/studienarbeit/bo/TileMap.java:59-62 | the map adopts the given array itself (no copy) and the scale factor |
| TileMaps.TileMap.FirstFreeFrom | src/de/hdm/hettich/studienarbeit/bo/TileMap.java:123-149 | a position found by scanning from (x, y) is an empty cell inside the grid |
| TileMaps.TileMap.GetNextFreePosition | src/de/hdm/hettich/studienarbeit/bo/TileMap.java:123-149 | returns the first empty cell in x-outer, y-inner order (every earlier cell is filled), and returns nothing exactly when every cell is filled |
| TileMaps.TileMap.FirstFreeFromFinds | src/de/hdm/hettich/studienarbeit/bo/TileMap.java:123-149 | a scan that starts at or before the first free cell finds exactly that cell |
| TileMaps.TileMap.FillOrder | src/de/hdm/hettich/studienarbeit/bo/TileMap.java:102-149 | when the first k cells in scan order are filled and the rest are empty, the next tile goes to (k / Y, k % Y) |
| TileMaps.TileMap.AddTile | src/de/hdm/hettich/studienarbeit/bo/TileMap.java:102-116 | succeeds if and only if the map was not full; the tile lands on the previously first free cell and no other cell changes |
| TileMaps.TileMap.GetTile | src/de/hdm/hettich/studienarbeit/bo/TileMap.java:158-160 | the tile at (x, y) is one of the map's tiles, and a full map has a tile at every cell |
| TileMaps.TileMap.SetTile | src/de/hdm/hettich/studienarbeit/bo/TileMap.java:169-171 | afterwards `getTile(x, y)` returns the tile, and every other cell is unchanged |
| TileMaps.TileMap.GetArea | src/de/hdm/hettich/studienarbeit/bo/TileMap.java:182-192 | returns dx·dy tiles, with `tiles[x+i][y+j]` at position i·dy + j (i outer, j inner), and nothing for an empty area |
| TileMaps.TileMap.GetDimension | src/de/hdm/hettich/studienarbeit/bo/TileMap.java:233-235 | the dimension counts a positive number of columns, and a cell lies inside it exactly when it indexes the tile array |
| TileMaps.TileMap.GetTileSize | src/de/hdm/hettich/studienarbeit/bo/TileMap.java:223-225 | the size of tile (0, 0); when all tiles have one size, it is the size of every tile |
| TileMaps.TileMap.GetSize | src/de/hdm/hettich/studienarbeit/bo/TileMap.java:204-214 | pixel size is dimension times tile size on each axis |
| TileMaps.TileMap.GetLoadedTiles | src/de/hdm/hettich/studienarbeit/bo/TileMap.java:246-270 | a new array of the same shape holding exactly the loaded tiles, with null elsewhere; the map itself is untouched |
| Drawings.Inserted | src/de/hdm/hettich/studienarbeit/bo/Drawing.java:149-151 | inserting at `location` puts the element there, keeps earlier entries and shifts later ones up by one |
| Drawings.InsertedAtEnd | src/de/hdm/hettich/studienarbeit/bo/Drawing.java:139-151 | inserting at the end is appending |
| Drawings.InsertedThenRemoved | src/de/hdm/hettich/studienarbeit/bo/Drawing.java:149-151 | removing the inserted entry gives back the original list |
| Drawings.Drawing.constructor | src/de/hdm/hettich/studienarbeit/bo/Drawing.java:56-62 | the drawing holds the given maps, active map, initial size and defects |
| Drawings.Drawing.Sized | src/de/hdm/hettich/studienarbeit/bo/Drawing.java:70-72 | a drawing of a given initial size starts with no maps, no defects and no active map |
| Drawings.Drawing.AddTileMap | src/de/hdm/hettich/studienarbeit/bo/Drawing.java:139-141 | the map is appended; earlier maps and every other field are unchanged |
| Drawings.Drawing.AddTileMapAt | src/de/hdm/hettich/studienarbeit/bo/Drawing.java:149-151 | the map is inserted at `location`; every other field is unchanged |
| Drawings.Drawing.SetDefects | src/de/hdm/hettich/studienarbeit/bo/Drawing.java:130-132 | replaces the defect list and nothing else |
| Drawings.Drawing.SetActiveTileMap | src/de/hdm/hettich/studienarbeit/bo/Drawing.java:100-102 | the given map becomes the active one; the map list is unchanged |
| Viewports.ClampAxis | src/de/hdm/hettich/studienarbeit/bo/Viewport.java:149-211 | the clamped coordinate is never negative, keeps the window inside the map when the map is large enough, is 0 when it is not, and leaves an in-range position alone |
| Viewports.Clamp | src/de/hdm/hettich/studienarbeit/bo/Viewport.java:149-211 | both axes are clamped independently; the window starts at or after 0 and ends inside the map on every axis where it fits |
| Viewports.ClampAxisIsNearest | src/de/hdm/hettich/studienarbeit/bo/Viewport.java:149-211 | the clamp on one axis is `max(0, min(p, map - size))` |
| Viewports.ClampIdempotent | src/de/hdm/hettich/studienarbeit/bo/Viewport.java:149-211 | clamping twice is clamping once |
| Viewports.ClampInside | src/de/hdm/hettich/studienarbeit/bo/Viewport.java:149-211 | an in-bounds position is left unchanged, and when the window fits, every clamped position is in bounds |
| Viewports.Viewport.constructor | src/de/hdm/hettich/studienarbeit/bo/Viewport.java:44-47 | the viewport keeps the given position object and size |
| Viewports.Viewport.CalculateCenter | src/de/hdm/hettich/studienarbeit/bo/Viewport.java:90-124 | on each axis the center is position + min(map, size) / 2, in Java integer division |
| Viewports.Viewport.CheckPosition | src/de/hdm/hettich/studienarbeit/bo/Viewport.java:149-211 | the new position is the clamp of the old one; the size never changes; an in-bounds position keeps its very object |
| Viewports.Viewport.SetPosition | src/de/hdm/hettich/studienarbeit/bo/Viewport.java:62-65 | the position becomes the clamp of the given one, and stays the given object when it is already in bounds |
| Viewports.Viewport.Translate | src/de/hdm/hettich/studienarbeit/bo/Viewport.java:133-136 | the shared position object is first moved by (dx, dy), so other holders see the move; the result is the clamp of the moved point, and a move that stays in bounds keeps the same position object |
| Viewports.Viewport.CenterInsideMap | src/de/hdm/hettich/studienarbeit/bo/Viewport.java:90-124 | for a clamped viewport the center lies on the map |
| Views.TileMapView.constructor | src/de/hdm/hettich/studienarbeit/view/TileMapView.java:49-52 | the view holds the tile map and has no children yet |
| Views.TileView.constructor | src/de/hdm/hettich/studienarbeit/view/TileView.java:46-49 | the view holds the tile and shows no bitmap yet |
| LazyLoading.RingIndex | src/de/hdm/hettich/studienarbeit/loading/LazyLoader.java:282-372 | every cell at distance `level` is reached by the walk, at a step below 8·level |
| LazyLoading.RingIndexOfRingAt | src/de/hdm/hettich/studienarbeit/loading/LazyLoader.java:282-372 | every step of the walk around ring `level` is at Chebyshev distance `level` from the center, and the walk visits each cell only once |
| LazyLoading.RingAtBounds | src/de/hdm/hettich/studienarbeit/loading/LazyLoader.java:282-372 | every step of the walk stays within `level` of the center on both axes |
| LazyLoading.Ring | src/de/hdm/hettich/studienarbeit/loading/LazyLoader.java:282-372 | the walk around ring `level` has 8·level steps, and none below level 1 |
| LazyLoading.RingShape | src/de/hdm/hettich/studienarbeit/loading/LazyLoader.java:282-372 | the walk lists exactly the cells at distance `level`, each once, so the start corner is not repeated |
| LazyLoading.RingOne | src/de/hdm/hettich/studienarbeit/loading/LazyLoader.java:282-372 | ring 1 is walked from the top right corner: down the right column, left along the bottom, up the left column, then right along the top |
| LazyLoading.RingOneAround | src/de/hdm/hettich/studienarbeit/loading/LazyLoader.java:282-372 | ring 1 around (1, 1) is (2,0), (2,1), (2,2), (1,2), (0,2), (0,1), (0,0), (1,0) |
| LazyLoading.Shift | src/de/hdm/hettich/studienarbeit/loading/LazyLoader.java:282-372 | each offset is moved by the center tile, in order |
| LazyLoading.ShiftSpec | src/de/hdm/hettich/studienarbeit/loading/LazyLoader.java:282-372 | a cell is in the shifted walk exactly when its offset from the center is in the walk, and shifting keeps cells distinct |
| LazyLoading.CheckCoordinate | src/de/hdm/hettich/studienarbeit/loading/LazyLoader.java:423-428 | holds if and only if 0 <= x < dim.x and 0 <= y < dim.y |
| LazyLoading.KeepInBoundsAppend | src/de/hdm/hettich/studienarbeit/loading/LazyLoader.java:302-374 | filtering a list extended by one cell adds that cell exactly when it is in bounds |
| LazyLoading.KeepInBoundsSpec | src/de/hdm/hettich/studienarbeit/loading/LazyLoader.java:302-374 | the bounds filter keeps exactly the in-bounds cells, keeps them distinct, never grows the list, and drops nothing when all cells are in bounds |
| LazyLoading.KeepInBoundsAll | src/de/hdm/hettich/studienarbeit/loading/LazyLoader.java:302-374 | a list that lies wholly in bounds passes the filter unchanged |
| LazyLoading.RingNeighboursSpec | src/de/hdm/hettich/studienarbeit/loading/LazyLoader.java:268-375 | the cells of one level are exactly the in-bounds cells at distance `level` from the center, without repeats, and no more than the ring holds |
| LazyLoading.RingInSquare | src/de/hdm/hettich/studienarbeit/loading/LazyLoader.java:268-375 | when the whole square around the center lies in the map, a level has all of its 8·level cells |
| LazyLoading.SidesMakeRing | src/de/hdm/hettich/studienarbeit/loading/LazyLoader.java:282-372 | the right column, bottom row, left column and top row loops together produce the bounds-filtered ring, in walk order |
| LazyLoading.DownSideWalk | src/de/hdm/hettich/studienarbeit/loading/LazyLoader.java:302-310 | the right-column loop takes the first 2·level steps of the walk |
| LazyLoading.LeftSideWalk | src/de/hdm/hettich/studienarbeit/loading/LazyLoader.java:322-330 | after the right column, the bottom-row loop takes the walk to step 4·level |
| LazyLoading.UpSideWalk | src/de/hdm/hettich/studienarbeit/loading/LazyLoader.java:342-350 | after the bottom row, the left-column loop takes the walk to step 6·level |
| LazyLoading.RightSideWalk | src/de/hdm/hettich/studienarbeit/loading/LazyLoader.java:364-372 | after the left column, the top-row loop completes the walk at step 8·level |
| LazyLoading.WalkedFilters | src/de/hdm/hettich/studienarbeit/loading/LazyLoader.java:282-372 | walking k steps keeps exactly the in-bounds cells among the first k cells of the shifted ring, in order |
| LazyLoading.WalkedWhole | src/de/hdm/hettich/studienarbeit/loading/LazyLoader.java:282-372 | the whole walk yields the level's neighbour list |
| LazyLoading.RingNeighboursShort | src/de/hdm/hettich/studienarbeit/loading/LazyLoader.java:268-375 | a level never holds more than the 8·level cells of its ring |
| LazyLoading.LevelsMembers | src/de/hdm/hettich/studienarbeit/loading/LazyLoader.java:391-411 | levels 1..r together are exactly the in-bounds cells at distance 1..r |
| LazyLoading.LevelsDistinct | src/de/hdm/hettich/studienarbeit/loading/LazyLoader.java:391-411 | levels 1..r never list a cell twice |
| LazyLoading.LevelsOrdered | src/de/hdm/hettich/studienarbeit/loading/LazyLoader.java:391-411 | the cells of levels 1..r come in non-decreasing distance from the center |
| LazyLoading.LevelsLength | src/de/hdm/hettich/studienarbeit/loading/LazyLoader.java:391-411 | levels 1..r hold at most (2r+1)² - 1 cells, and exactly that many when the square fits the map |
| LazyLoading.NeighboursSpec | src/de/hdm/hettich/studienarbeit/loading/LazyLoader.java:391-411 | the center tile comes first, unchecked; every later cell is in bounds; nothing repeats; and the list holds the center plus exactly the in-bounds cells within distance r |
| LazyLoading.NeighboursOrdered | src/de/hdm/hettich/studienarbeit/loading/LazyLoader.java:391-411 | the neighbour list is ordered by non-decreasing distance from the center |
| LazyLoading.NeighboursLength | src/de/hdm/hettich/studienarbeit/loading/LazyLoader.java:391-411 | the neighbour list holds at most (2r+1)² cells, and exactly that many when the square fits the map |
| LazyLoading.NeighboursExample | src/de/hdm/hettich/studienarbeit/loading/LazyLoader.java:268-411 | center (1, 1) on a 10×10 map at level 1 gives (1,1), (2,0), (2,1), (2,2), (1,2), (0,2), (0,1), (0,0), (1,0) |
| LazyLoading.CalculateCenterTile | src/de/hdm/hettich/studienarbeit/loading/LazyLoader.java:228-231 | for non-negative pixels the result is the tile containing the center pixel on each axis |
| LazyLoading.CenterTileInGrid | src/de/hdm/hettich/studienarbeit/loading/LazyLoader.java:228-231 | a center pixel on the map lies in a tile of the grid |
| LazyLoading.LazyLoader.constructor | src/de/hdm/hettich/studienarbeit/loading/LazyLoader.java:67-70 | the loader keeps the given view and viewport |
| LazyLoading.LazyLoader.CalculateLoadingLevel | src/de/hdm/hettich/studienarbeit/loading/LazyLoader.java:240-257 | the level is the number of whole tiles in half the longer viewport side; a square viewport uses the y axis |
| LazyLoading.LazyLoader.CalculateNeighboursOfLevel | src/de/hdm/hettich/studienarbeit/loading/LazyLoader.java:268-375 | the four loops yield exactly the in-bounds cells of the ring in walk order (see RingNeighboursSpec), and nothing at level 0 |
| LazyLoading.LazyLoader.CalculateNeighbours | src/de/hdm/hettich/studienarbeit/loading/LazyLoader.java:391-411 | the center tile followed by rings 1..level in increasing order (see NeighboursSpec) |
| LazyLoading.LazyLoaderSlot.Obtain | src/de/hdm/hettich/studienarbeit/loading/LazyLoader.java:84-95 | returns the stored loader when it was made for the same view and viewport; otherwise stores and returns a new one |
| GarbageCollection.Gap | src/de/hdm/hettich/studienarbeit/service/TileGarbageService.java:92-99 | the distance measure is never negative and is zero only at the current tile |
| GarbageCollection.GapZero | src/de/hdm/hettich/studienarbeit/service/TileGarbageService.java:92-99 | the vector from the current tile to a cell has length zero only for the current tile itself |
| GarbageCollection.MostDistantUnique | src/de/hdm/hettich/studienarbeit/service/TileGarbageService.java:77-110 | the eviction choice is fully determined: farthest loaded cell, first in scan order on ties |
| GarbageCollection.MostDistantNone | src/de/hdm/hettich/studienarbeit/service/TileGarbageService.java:77-118 | nothing is chosen exactly when no loaded tile lies anywhere but on the current tile |
| GarbageCollection.ChooseMostDistant | src/de/hdm/hettich/studienarbeit/service/TileGarbageService.java:75-110 | the scan over the loaded snapshot picks the loaded cell with strictly the greatest distance, the first in x-outer, y-inner order on ties, and never one at distance 0 |
| GarbageCollection.CleanIfNecessary | src/de/hdm/hettich/studienarbeit/service/TileGarbageService.java:66-145 | without memory pressure nothing happens; otherwise the most distant loaded tile, if any, is forgotten, the view at its true child index shows the placeholder, and no other tile or view changes |
| GarbageCollection.CleanIfNecessaryAsWritten | src/de/hdm/hettich/studienarbeit/service/TileGarbageService.java:66-145 | the same choice of tile, but the view is looked up at `convertMatrixPos2Int`: either that child exists, is cleared and shows the cell that index decodes to, and the chosen tile forgets its image; or the index is past the last child, and no tile or view changes |
| GarbageCollection.AsWrittenClearsOtherView | src/de/hdm/hettich/studienarbeit/service/TileGarbageService.java:128-130 | on a laid-out 2×3 map, evicting tile (1, 0) clears the view of tile (0, 2) |
| GarbageCollection.AsWrittenMissesView | src/de/hdm/hettich/studienarbeit/service/TileGarbageService.java:128-130 | on a laid-out 3×2 map, tile (2, 1) is sent past the last of the 6 child views |
| BitmapLoading.TaskRegistry.constructor | src/de/hdm/hettich/studienarbeit/loading/BitmapConverter.java:40 | the registry starts empty |
| BitmapLoading.TaskRegistry.AddTask | src/de/hdm/hettich/studienarbeit/loading/BitmapConverter.java:87-89 | the task is appended |
| BitmapLoading.TaskRegistry.RemoveTask | src/de/hdm/hettich/studienarbeit/loading/BitmapConverter.java:97-99 | the first occurrence of the task is removed |
| BitmapLoading.TaskRegistry.CancelTasks | src/de/hdm/hettich/studienarbeit/loading/BitmapConverter.java:128-137 | every registered task is asked to cancel, and none is removed |
| BitmapLoading.RemoveFirst | src/de/hdm/hettich/studienarbeit/loading/BitmapConverter.java:97-99 | removing an absent task changes nothing; removing a present one shortens the list by one |
| BitmapLoading.RemoveFirstKeepsOrder | src/de/hdm/hettich/studienarbeit/loading/BitmapConverter.java:97-99 | removal cuts out exactly the first occurrence and keeps the other entries in order |
| BitmapLoading.RemoveFirstMultiset | src/de/hdm/hettich/studienarbeit/loading/BitmapConverter.java:97-99 | removal takes away one copy of the task and nothing else |
| BitmapLoading.RemoveAfterAdd | src/de/hdm/hettich/studienarbeit/loading/BitmapConverter.java:87-99 | registering a new task and then deregistering it restores the registry |
| BitmapLoading.BitmapConverter.constructor | src/de/hdm/hettich/studienarbeit/loading/BitmapConverter.java:47-49 | the converter works for the given tile view |
| BitmapLoading.BitmapConverter.LoadImage | src/de/hdm/hettich/studienarbeit/loading/BitmapConverter.java:106-123 | exactly one new, uncancelled task for this converter is appended to the registry |
| BitmapLoading.BitmapWorkerTask.constructor | src/de/hdm/hettich/studienarbeit/loading/BitmapWorkerTask.java:37-39 | the task belongs to the given converter and is not cancelled |
| BitmapLoading.BitmapWorkerTask.DoInBackground | src/de/hdm/hettich/studienarbeit/loading/BitmapWorkerTask.java:63-123 | a loaded tile, or one whose task was cancelled before the read, keeps its image; otherwise the read result, possibly null, is stored and a later cancel does not undo it; the result is nothing when cancelled, the decode of the stored image otherwise, and the null-image crash when nothing was read |
| BitmapLoading.BitmapWorkerTask.OnPostExecute | src/de/hdm/hettich/studienarbeit/loading/BitmapWorkerTask.java:133-147 | a bitmap is shown only when there is one, and the task is always deregistered |
| BitmapLoading.BitmapWorkerTask.OnCancelled | src/de/hdm/hettich/studienarbeit/loading/BitmapWorkerTask.java:153-159 | the task is deregistered |
| BitmapLoading.BitmapWorkerTask.Execute | src/de/hdm/hettich/studienarbeit/loading/BitmapWorkerTask.java:63-159 | one run of the task: the tile's image is read from its file exactly when it was not loaded and the task not cancelled at the start; the result is nothing for a cancelled task, the null-image outcome when the tile still has no image, and otherwise the decoding of the tile's bytes; a finished task is deregistered, and the view shows that bitmap when there is one and keeps its old bitmap otherwise |
| Zooming.CalculateNewPosition | src/de/hdm/hettich/studienarbeit/service/TileMapChanger.java:291-314 | a scale factor of 1 leaves the position where it was; CalculateNewPositionKeepsCenter and CalculateNewPositionRoundTrip state where the display center goes and that the inverse factor undoes the move |
| Zooming.CalculateNewPositionIdentity | src/de/hdm/hettich/studienarbeit/service/TileMapChanger.java:291-314 | a scale factor of 1 keeps the position |
| Zooming.CalculateNewPositionKeepsCenter | src/de/hdm/hettich/studienarbeit/service/TileMapChanger.java:291-314 | the pixel that was under the screen center, scaled, is under the screen center again |
| Zooming.CalculateNewPositionRoundTrip | src/de/hdm/hettich/studienarbeit/service/TileMapChanger.java:291-314 | when the scaled center is a whole pixel, scaling by s and then by its inverse b (s · b = 1) restores the position |
| Zooming.CalculateNewPositionExample | src/de/hdm/hettich/studienarbeit/service/TileMapChanger.java:297-313 | scale 2 from (100, 100) on a 400×400 display gives (400, 400) |
| Zooming.ZoomInThenOut | src/de/hdm/hettich/studienarbeit/service/TileMapChanger.java:142-193 | zooming in and then out brings back the original active map |
| Zooming.ZoomOutThenIn | src/de/hdm/hettich/studienarbeit/service/TileMapChanger.java:142-193 | zooming out and then in brings back the original active map |
| Zooming.TileMapChanger.constructor | src/de/hdm/hettich/studienarbeit/service/TileMapChanger.java:69-75 | the changer works on the given drawing and viewport |
| Zooming.TileMapChanger.InitZoom | src/de/hdm/hettich/studienarbeit/service/TileMapChanger.java:202-280 | the map becomes active, and the viewport moves to the clamp of the re-centred position against the new map's size; the map list and the viewport size are unchanged |
| Zooming.TileMapChanger.ZoomIn | src/de/hdm/hettich/studienarbeit/service/TileMapChanger.java:142-160 | zooms exactly when a next level exists, making it active and moving the viewport to the clamp of the re-centred position at the relative scale; at the last level the active map and the viewport position stay; the map list, defects, initial size and viewport size never change |
| Zooming.TileMapChanger.ZoomOut | src/de/hdm/hettich/studienarbeit/service/TileMapChanger.java:167-194 | zooms exactly when a previous level exists, making it active and moving the viewport to the clamp of the re-centred position at the relative scale; at level 0 the active map and the viewport position stay; the map list, defects, initial size and viewport size never change |
| DrawingCreation.LastLevelOfSize | src/de/hdm/hettich/studienarbeit/factory/DrawingCreator.java:155-172 | the last level below n whose pixel size equals the target, or -1 exactly when there is none |
| DrawingCreation.ActiveLevel | src/de/hdm/hettich/studienarbeit/factory/DrawingCreator.java:139-172 | the active level is at least 1, has the initial size, and is the last level of that size |
| DrawingCreation.DemoFrameStartsAtLevelOne | src/de/hdm/hettich/studienarbeit/DemoDrawingFrame.java:31-51 | the demo frame is accepted, starts at 4000×4000 pixels, and shows level 1 first |
| DrawingCreation.BuiltLevelSize | src/de/hdm/hettich/studienarbeit/factory/DrawingCreator.java:155-165 | a built level has uniform tiles and the pixel size dimension × tile size of its input entry |
| DrawingCreation.UniformGrid | src/de/hdm/hettich/studienarbeit/factory/DrawingCreator.java:65-88 | a dim.x × dim.y URI grid with the same URI in every cell |
| DrawingCreation.UniformGrids | src/de/hdm/hettich/studienarbeit/factory/DrawingCreator.java:95-119 | one grid per level, each covering the level and filled with that level's URI |
| DrawingCreation.PngFiles | src/de/hdm/hettich/studienarbeit/factory/DrawingCreator.java:59-132 | fails exactly when not exactly one PNG source is given; otherwise each level gets the single URI, its own URI, or its own grid |
| DrawingCreation.CreateDrawing | src/de/hdm/hettich/studienarbeit/factory/DrawingCreator.java:39-181 | null exactly when the counts disagree or the PNG source is not unique; otherwise a new drawing with one new, distinct map per level in input order, built from that level's entries, with the last map of the initial size active |
| DrawingCreation.AddLevels | src/de/hdm/hettich/studienarbeit/factory/DrawingCreator.java:155-172 | appends every level's map in order and leaves the last map of the initial size active |
| DrawingCreation.AddLevel | src/de/hdm/hettich/studienarbeit/factory/DrawingCreator.java:155-172 | appends one new built map, and makes it active exactly when its size is the initial size |
| DrawingCreation.CreateTileMap | src/de/hdm/hettich/studienarbeit/factory/DrawingCreator.java:193-210 | a full new map of distinct new unloaded tiles of the given size, with `pngFile[x][y]` at cell (x, y), because the loop order matches the fill order of `addTile` |

## Left out

- `LazyLoader.load()` (LazyLoader.java:132-219) is not modelled: it runs on a static `Thread` that is interrupted and replaced, which is concurrency. Its sequential part only iterates over `calculateNeighbours`, which is modelled.
- Android's `AsyncTask` scheduling and `cancel(true)` are not modelled. A task's cancellation is a flag, plus a boolean input for a cancel that arrives during the read; `Execute` is one sequential run.
- `BitmapConverter.processByteArray` and `processBitmap` are file I/O and `BitmapFactory` calls. They are the `read` and `decode` function parameters.
- BitmapLoading.BitmapWorkerTask.DoInBackground: the `NullPointerException` that `processBitmap(null)` throws (BitmapConverter.java:148) is the `NullImage` outcome rather than an exception.
- `GlobalSettings.isLowMemory` reads runtime memory telemetry and is the boolean `lowMemory` input.
- Tools.SquaredLength: `calculateVectorLength` takes a square root in floating point. The model compares squared integer lengths, which orders distances the same way.
- Java `int` overflow is not modelled. Integers are unbounded.
- Zooming.CalculateNewPositionRoundTrip: `float` scale factors are exact reals. IEEE rounding is not modelled, so the round trip holds only for exact values.
- The view code is not modelled: touch handling, layout margins, `Toast`, `Handler.postDelayed` and the wrapper views in `TileMapChanger`. `TileMap2ViewFactory`'s child order is kept as the `Laid` predicate of a `TileMapView`.
- Zooming.TileMapChanger.InitZoom: requires an active map, because `initZoom` reads its scale factor (TileMapChanger.java:205) and throws a NullPointerException without one. It also requires a non-zero scale factor on the active map. With a zero factor, Java's `float` division gives Infinity or NaN, and the `(int)` cast then saturates or gives 0, without throwing. The model leaves that IEEE case out. It also requires the new map to have a tile at [0][0], because `getSize` throws without one. ZoomIn and ZoomOut inherit these requirements through `CanZoomIn` and `CanZoomOut`.
- Zooming.TileMapChanger.InitZoom: the call to the lazy loader at the end of `initZoom` is not modelled, because it starts `load()`.
- Viewports.Viewport.CheckPosition: when a clamp fires, the Java code stores a new `Coordinate` object (Viewport.java:163-164, 193-194). The model also allocates a new object then, and promises the old object only for an in-bounds position.
- GarbageCollection.CleanIfNecessary: the view is looked up at the corrected child index `x * dim.y + y`. The source's misrouted lookup and its NullPointerException on non-square maps are modelled only by `GarbageCollection.CleanIfNecessaryAsWritten` (see "## Findings").
- GarbageCollection.CleanIfNecessary and GarbageCollection.CleanIfNecessaryAsWritten: under low memory they require a full map with at least one column, laid out by the view factory. `getLoadedTiles` throws a NullPointerException on an empty cell and an index error on a map with no column.
- GarbageCollection.CleanIfNecessary: the tile is forgotten through the snapshot from `getLoadedTiles`. That snapshot shares its tiles with the map, and the model states the effect on the map's own tiles.
- TileMaps.TileMap.AddTile: the `Error` thrown when the map is full is the result `ok == false`, with the map unchanged.
- `Defect` is a plain data holder. It is the `Defect` datatype, and only whole lists of defects are stored.
- DrawingCreation.DemoFrameStartsAtLevelOne: `DemoDrawingFrame` reads the SD-card path from `Environment`. Only its numbers are used, as a concrete frame.
- DrawingCreation.CreateDrawing: the URI arrays are built by appending rows rather than by filling a preallocated `URI[][]`. A null URI in a per-tile grid is not representable, because `Uri` has no null.
- DrawingCreation.CreateDrawing: the Java code never checks the length of `scaleFactors`, nor the shapes of the per-map and per-tile URI lists, and fails with an index error when one is too short. The model requires them to be long enough instead of modelling that error. It also requires at least two zoom levels, because the reference size is read from level 1 (`get(1)`, DrawingCreator.java:139), and positive level dimensions, because `getSize` reads `tiles[0][0]` (TileMap.java:212-213) and throws on an empty level.
- LazyLoading.CalculateCenterTile: requires non-zero tile sizes. Java's integer division by zero throws an ArithmeticException.
- LazyLoading.LazyLoader.CalculateLoadingLevel: requires a non-zero tile size on the axis it divides by, for the same ArithmeticException.
- Tools.JavaDiv: requires a non-zero divisor, for the same reason.
- Drawings.Drawing.AddTileMapAt: requires 0 <= location <= size. `ArrayList.add` throws an IndexOutOfBoundsException outside that range.
- TileMaps.TileMap.constructor: requires non-negative dimensions. Java throws a NegativeArraySizeException otherwise.
- TileMaps.TileMap.GetArea: requires the area to lie inside the array when it is non-empty. The source throws an ArrayIndexOutOfBoundsException otherwise.
- TileMaps.TileMap.GetTile and TileMaps.TileMap.SetTile: require an in-array position, for the same exception.
- TileMaps.TileMap.GetDimension: requires at least one column, because it reads `tiles[0].length`.
- TileMaps.TileMap.GetTileSize and TileMaps.TileMap.GetSize: require a tile at [0][0]. The source throws an index error or a NullPointerException without one.
- TileMaps.TileMap.GetLoadedTiles: requires a full map with at least one column. The source calls `isLoaded` on every cell and reads `tiles[0]`.
- TileMaps.TileMap.FromTiles: only rectangular arrays are represented (`array2`). The jagged `Tile[][]` that the Java constructor accepts has no counterpart, and no code in the repository calls that constructor.
- The setters `Tile.setSize` and `Tile.setFilename` (Tile.java:66, 96), `TileMap.setTiles` and `TileMap.setScaleFactor` (TileMap.java:75, 90), and `Drawing.setTileMaps` and `Drawing.setInitialSize` (Drawing.java:85, 115) have no members. Nothing in the repository calls them, so `size`, `filename`, `tiles` and `scaleFactor` are constants. The drawing's `ArrayList` is a `seq`, so aliasing through a list handed to `setTileMaps` is not represented.
- Coordinates.Coordinate: the setters `setX` and `setY` are plain field writes and have no members of their own.

## Findings

| source | as written | input that shows it | evidently intended | confidence | as-written member | corrected member |
|---|---|---|---|---|---|---|
| src/de/hdm/hettich/studienarbeit/utile/Tools.java:30-33 | `convertMatrixPos2Int` returns `x * dim.x + y` | dimension (2, 3): cell (1, 0) gets index 2, which is the child showing cell (0, 2). Dimension (3, 2): cell (2, 1) gets index 7, past the last of the 6 children | `x * dim.y + y`, the order in which TileMap2ViewFactory.java:65-74 adds the child views; the two agree only on square grids. `GarbageCollection.CleanIfNecessary` finds the view with the corrected index; the eviction as written is the next row. The same index also picks the view to load in `LazyLoader.load()` (LazyLoader.java:194-196), so loading starts on the wrong view or fails on a null view too; `load()` is not part of this model | not executed | Tools.ConvertMatrixPos2IntMisroutes | Tools.ChildIndexInjective |
| src/de/hdm/hettich/studienarbeit/service/TileGarbageService.java:128-130 | `cleanIfNecessary` clears the child view at `convertMatrixPos2Int(pos, dimension)` | a 2×3 map whose most distant loaded tile is (1, 0): the view of tile (0, 2) is cleared while (1, 0) forgets its image. A 3×2 map whose most distant tile is (2, 1): `getChildAt(7)` returns null, `setImageBitmap` throws, and nothing is evicted | the view of the evicted tile itself, child `x * dim.y + y`, is cleared | not executed | GarbageCollection.AsWrittenClearsOtherView | GarbageCollection.CleanIfNecessary |
