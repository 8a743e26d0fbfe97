/**
 * The two Android widgets the loading code works through, reduced to the
 * state it reads and writes: TileMapView.java holds the tile map of a zoom
 * level, TileView.java holds one tile and the bitmap the ImageView shows.
 */
module Views {
  import opened Wrappers
  import opened Coordinates
  import opened Tools
  import opened TileMaps
  import opened Tiles

  /** A decoded image, as BitmapFactory returns it. */
  datatype Bitmap = Bitmap(width: nat, height: nat, pixels: seq<int>)

  class TileMapView {
    var tileMap: TileMap
    /** The child views, in the order addView added them. */
    var children: seq<TileView>

    constructor (tileMap: TileMap)
      ensures this.tileMap == tileMap && children == []
    {
      this.tileMap := tileMap;
      children := [];
    }

    /**
     * The children as TileMap2ViewFactory lays them out: one view per cell,
     * added with x outer and y inner, so cell c is shown by child ChildIndex(c).
     */
    ghost predicate Laid()
      reads this, tileMap, tileMap.tiles, children
    {
      var dim := tileMap.Dimension();
      |children| == dim.x * dim.y &&
      forall c :: InGrid(c, dim) ==>
        0 <= ChildIndex(c, dim) < |children| && children[ChildIndex(c, dim)].tile == tileMap.tiles[c.x, c.y]
    }
  }

  class TileView {
    var tile: Tile
    /** What ImageView.setImageBitmap last installed; none at first. */
    var bitmap: Option<Bitmap>

    constructor (tile: Tile)
      ensures this.tile == tile && bitmap == None
    {
      this.tile := tile;
      bitmap := None;
    }

    /** setImageBitmap(b); None stands for null, which shows the placeholder again. */
    method SetImageBitmap(b: Option<Bitmap>)
      modifies this
      ensures bitmap == b && tile == old(tile)
    {
      bitmap := b;
    }
  }
}
