/**
 * Tile.java: one cell of a TileMap.  A tile has a pixel size and the URI of
 * its PNG, both fixed once the tile is built, and a byte array holding the
 * loaded image, or null while nothing is loaded.
 */
module Tiles {
  import opened Coordinates

  /** Java's signed byte. */
  newtype Byte = b: int | -128 <= b < 128

  /** A java.net.URI naming a PNG file; URIs compare by value. */
  datatype Uri = Uri(path: string)

  class Tile {
    const size: Coord
    const filename: Uri
    /** The loaded bytes; the array is compared by reference in `Equals`. */
    var image: array?<Byte>

    /** Tile(size, filename): a tile with nothing loaded. */
    constructor (size: Coord, filename: Uri)
      ensures this.size == size && this.filename == filename
      ensures image == null && !IsLoaded()
    {
      this.size := size;
      this.filename := filename;
      image := null;
    }

    /** isLoaded(): there is an image and it is not empty. */
    predicate IsLoaded()
      reads this
      ensures IsLoaded() ==> image != null
      ensures image != null && image.Length == 0 ==> !IsLoaded()
    {
      image != null && image.Length > 0
    }

    /** setImage(b); getImage() then returns b. */
    method SetImage(b: array?<Byte>)
      modifies this
      ensures image == b
    {
      image := b;
    }

    /** forget(): drops the image; size and filename are untouched. */
    method Forget()
      modifies this
      ensures image == null && !IsLoaded()
    {
      image := null;
    }

    /**
     * equals(Tile tile): same filename and size by value, and the very same
     * image array (or both null).
     */
    predicate Equals(t: Tile): (eq: bool)
      reads this, t
      ensures t == this ==> eq
      ensures eq ==> (IsLoaded() <==> t.IsLoaded())
    {
      filename == t.filename && image == t.image && size == t.size
    }
  }

  /**
   * Two tiles whose images are different arrays are never equal, even with
   * the same bytes; two fresh tiles of the same file and size are.
   */
  lemma EqualsComparesImageIdentity(a: Tile, b: Tile)
    ensures a.image != b.image ==> !a.Equals(b)
    ensures a.image == null && b.image == null ==>
              (a.Equals(b) <==> a.filename == b.filename && a.size == b.size)
  {
  }
}
