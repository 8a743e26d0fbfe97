/**
 * LazyLoader.java: decides which tiles to load and in which order.  Around
 * the tile under the screen center it walks square rings of growing
 * Chebyshev radius, keeping only the cells that lie in the map.
 */
module LazyLoading {
  import opened Coordinates
  import opened Tools
  import opened Views
  import opened Viewports

  /** Chebyshev distance between two cells: the ring a cell lies on. */
  function Dist(a: Coord, b: Coord): nat
  {
    Max(Abs(a.x - b.x), Abs(a.y - b.y))
  }

  /**
   * Offset number k (0 <= k < 8 * level) of the walk around ring `level`,
   * relative to the center: down the right column from the top right
   * corner, left along the bottom row, up the left column, then right
   * along the top row, stopping just before the start corner.
   */
  function RingAt(level: int, k: int): Coord
    requires level >= 1 && 0 <= k < 8 * level
  {
    if k < 2 * level then Coord(level, -level + k)
    else if k < 4 * level then Coord(level - (k - 2 * level), level)
    else if k < 6 * level then Coord(-level, level - (k - 4 * level))
    else Coord(-level + (k - 6 * level), -level)
  }

  /** Where on the walk of ring `level` the offset `c` comes. */
  function RingIndex(level: int, c: Coord): (k: int)
    requires level >= 1 && Dist(c, Coord(0, 0)) == level
    ensures 0 <= k < 8 * level && RingAt(level, k) == c
  {
    if c.x == level && c.y < level then c.y + level
    else if c.y == level && c.x > -level then 2 * level + (level - c.x)
    else if c.x == -level && c.y > -level then 4 * level + (level - c.y)
    else 6 * level + (c.x + level)
  }

  /** Every step of the walk is on the ring, and the walk visits it only at that step. */
  lemma RingIndexOfRingAt(level: int, k: int)
    requires level >= 1 && 0 <= k < 8 * level
    ensures Dist(RingAt(level, k), Coord(0, 0)) == level && RingIndex(level, RingAt(level, k)) == k
  {
  }

  /** The whole walk of ring `level`; the loops do not run for a level below 1. */
  function Ring(level: int): (r: seq<Coord>)
    ensures |r| == if level >= 1 then 8 * level else 0
  {
    if level < 1 then [] else seq(8 * level, k requires 0 <= k < 8 * level => RingAt(level, k))
  }

  predicate NoDuplicates(s: seq<Coord>)
  {
    forall i, j :: 0 <= i < j < |s| ==> s[i] != s[j]
  }

  /**
   * The ring of a level >= 1 holds 8 * level offsets, all different, and
   * it holds exactly the offsets at Chebyshev distance `level`.
   */
  lemma RingShape(level: int)
    ensures NoDuplicates(Ring(level))
    ensures forall c :: c in Ring(level) <==> level >= 1 && Dist(c, Coord(0, 0)) == level
  {
    if level >= 1 {
      var r := Ring(level);
      forall i, j | 0 <= i < j < |r|
        ensures r[i] != r[j]
      {
        RingIndexOfRingAt(level, i);
        RingIndexOfRingAt(level, j);
      }
      forall c | Dist(c, Coord(0, 0)) == level
        ensures c in r
      {
        var k := RingIndex(level, c);
        assert r[k] == c;
      }
    }
  }

  /** The cells `s` names relative to `center`. */
  function Shift(s: seq<Coord>, center: Coord): (r: seq<Coord>)
    ensures |r| == |s|
    ensures forall i :: 0 <= i < |s| ==> r[i] == Offset(s[i], center.x, center.y)
  {
    seq(|s|, i requires 0 <= i < |s| => Offset(s[i], center.x, center.y))
  }

  /** checkCoordinate(c, dimension) */
  predicate CheckCoordinate(c: Coord, dimension: Coord)
    ensures CheckCoordinate(c, dimension) <==> InGrid(c, dimension)
  {
    c.x < dimension.x && c.y < dimension.y && c.x >= 0 && c.y >= 0
  }

  /** The cells of `s` that pass checkCoordinate, in the order of `s`. */
  function KeepInBounds(s: seq<Coord>, dimension: Coord): seq<Coord>
  {
    if s == [] then []
    else
      var last := s[|s| - 1];
      KeepInBounds(s[..|s| - 1], dimension) + (if CheckCoordinate(last, dimension) then [last] else [])
  }

  lemma KeepInBoundsAppend(s: seq<Coord>, c: Coord, dimension: Coord)
    ensures KeepInBounds(s + [c], dimension) ==
              KeepInBounds(s, dimension) + (if CheckCoordinate(c, dimension) then [c] else [])
  {
    assert (s + [c])[..|s|] == s;
  }

  /**
   * Filtering keeps exactly the in-bounds members, adds no duplicates and
   * never lengthens; it drops nothing when every member is in bounds.
   */
  lemma {:induction false} KeepInBoundsSpec(s: seq<Coord>, dimension: Coord)
    ensures forall c :: c in KeepInBounds(s, dimension) <==> c in s && InGrid(c, dimension)
    ensures NoDuplicates(s) ==> NoDuplicates(KeepInBounds(s, dimension))
    ensures |KeepInBounds(s, dimension)| <= |s|
    ensures (forall c :: c in s ==> InGrid(c, dimension)) ==> |KeepInBounds(s, dimension)| == |s|
  {
    if s != [] {
      var init := s[..|s| - 1];
      var last := s[|s| - 1];
      assert s == init + [last];
      KeepInBoundsSpec(init, dimension);
      if NoDuplicates(s) {
        assert NoDuplicates(init);
        assert last !in init;
      }
    }
  }

  /** The in-bounds cells of ring `level` around `center`, in walk order. */
  function RingNeighbours(center: Coord, dimension: Coord, level: int): seq<Coord>
  {
    KeepInBounds(Shift(Ring(level), center), dimension)
  }

  /** Shifting moves membership along with it and keeps the cells apart. */
  lemma ShiftSpec(s: seq<Coord>, center: Coord)
    ensures forall c :: c in Shift(s, center) <==> Offset(c, -center.x, -center.y) in s
    ensures NoDuplicates(s) ==> NoDuplicates(Shift(s, center))
  {
    var w := Shift(s, center);
    forall c
      ensures c in w <==> Offset(c, -center.x, -center.y) in s
    {
      if Offset(c, -center.x, -center.y) in s {
        var i :| 0 <= i < |s| && s[i] == Offset(c, -center.x, -center.y);
        assert w[i] == c;
      }
    }
  }

  lemma RingNeighboursSpec(center: Coord, dimension: Coord, level: int)
    ensures forall c :: c in RingNeighbours(center, dimension, level) <==>
              InGrid(c, dimension) && level >= 1 && Dist(c, center) == level
    ensures NoDuplicates(RingNeighbours(center, dimension, level))
    ensures |RingNeighbours(center, dimension, level)| <= |Ring(level)|
  {
    var w := Shift(Ring(level), center);
    RingShape(level);
    ShiftSpec(Ring(level), center);
    KeepInBoundsSpec(w, dimension);
    forall c
      ensures c in w <==> level >= 1 && Dist(c, center) == level
    {
      assert Dist(c, center) == Dist(Offset(c, -center.x, -center.y), Coord(0, 0));
    }
  }

  /** Rings 1 to `level` one after the other, each filtered to the map. */
  function Levels(center: Coord, dimension: Coord, level: int): seq<Coord>
  {
    if level < 1 then [] else Levels(center, dimension, level - 1) + RingNeighbours(center, dimension, level)
  }

  /** What calculateNeighbours returns: the center tile, unchecked, then rings 1 to `level`. */
  function Neighbours(center: Coord, dimension: Coord, level: int): seq<Coord>
  {
    [center] + Levels(center, dimension, level)
  }

  /** The rings hold exactly the in-bounds cells at distance 1 to `level`. */
  lemma {:induction false} LevelsMembers(center: Coord, dimension: Coord, level: int)
    ensures forall c :: c in Levels(center, dimension, level) <==>
              InGrid(c, dimension) && 1 <= Dist(c, center) <= level
  {
    if level >= 1 {
      LevelsMembers(center, dimension, level - 1);
      RingNeighboursSpec(center, dimension, level);
    }
  }

  /** No cell appears twice in the rings. */
  lemma {:induction false} LevelsDistinct(center: Coord, dimension: Coord, level: int)
    ensures NoDuplicates(Levels(center, dimension, level))
  {
    if level >= 1 {
      var prev := Levels(center, dimension, level - 1);
      var ring := RingNeighbours(center, dimension, level);
      LevelsDistinct(center, dimension, level - 1);
      LevelsMembers(center, dimension, level - 1);
      RingNeighboursSpec(center, dimension, level);
      forall i, j | 0 <= i < j < |prev + ring|
        ensures (prev + ring)[i] != (prev + ring)[j]
      {
        if i < |prev| && |prev| <= j {
          assert (prev + ring)[i] in prev;
          assert (prev + ring)[j] in ring;
        }
      }
    }
  }

  /** The number of cells at distance 1 to `level` from a cell: 8 on ring 1, 16 on ring 2, ... */
  function SquareRingCount(level: nat): nat
  {
    if level == 0 then 0 else SquareRingCount(level - 1) + 8 * level
  }

  /** Together with the center they fill the (2 * level + 1) x (2 * level + 1) square. */
  lemma {:induction false} SquareRingCountClosed(level: nat)
    ensures SquareRingCount(level) + 1 == (2 * level + 1) * (2 * level + 1)
  {
    if level > 0 {
      SquareRingCountClosed(level - 1);
      assert (2 * level + 1) * (2 * level + 1) == (2 * (level - 1) + 1) * (2 * (level - 1) + 1) + 8 * level;
    }
  }

  /**
   * The rings never hold more cells than the square around the center,
   * and hold all of them when the square lies in the map.
   */
  lemma {:induction false} LevelsLength(center: Coord, dimension: Coord, level: nat)
    ensures |Levels(center, dimension, level)| <= SquareRingCount(level)
    ensures SquareInGrid(center, level, dimension) ==>
              |Levels(center, dimension, level)| == SquareRingCount(level)
  {
    if level >= 1 {
      var prev := Levels(center, dimension, level - 1);
      var ring := RingNeighbours(center, dimension, level);
      assert |Levels(center, dimension, level)| == |prev| + |ring|;
      LevelsLength(center, dimension, level - 1);
      RingNeighboursShort(center, dimension, level);
      if SquareInGrid(center, level, dimension) {
        RingInSquare(center, dimension, level);
        assert SquareInGrid(center, level - 1, dimension);
      }
    }
  }

  /** A filtered ring never holds more than the 8 * level cells of the ring. */
  lemma RingNeighboursShort(center: Coord, dimension: Coord, level: int)
    requires level >= 1
    ensures |RingNeighbours(center, dimension, level)| <= 8 * level
  {
    KeepInBoundsSpec(Shift(Ring(level), center), dimension);
  }

  /** The square of cells within distance `level` of the center lies in the map. */
  predicate SquareInGrid(center: Coord, level: int, dimension: Coord)
  {
    0 <= center.x - level && center.x + level < dimension.x &&
    0 <= center.y - level && center.y + level < dimension.y
  }

  lemma RingInSquare(center: Coord, dimension: Coord, level: int)
    requires level >= 1 && SquareInGrid(center, level, dimension)
    ensures |RingNeighbours(center, dimension, level)| == 8 * level
  {
    var w := Shift(Ring(level), center);
    forall c | c in w
      ensures InGrid(c, dimension)
    {
      var i :| 0 <= i < |w| && w[i] == c;
      RingAtBounds(level, i);
    }
    KeepInBoundsSpec(w, dimension);
  }

  /** Every step of the walk stays within `level` of the center on both axes. */
  lemma RingAtBounds(level: int, k: int)
    requires level >= 1 && 0 <= k < 8 * level
    ensures -level <= RingAt(level, k).x <= level && -level <= RingAt(level, k).y <= level
  {
  }

  /**
   * calculateNeighbours: the center comes first, nothing repeats, every
   * later cell is in the map, and the list holds exactly the in-bounds
   * cells within distance `level` (and the center, checked or not).
   */
  lemma NeighboursSpec(center: Coord, dimension: Coord, level: int)
    ensures Neighbours(center, dimension, level)[0] == center
    ensures NoDuplicates(Neighbours(center, dimension, level))
    ensures forall i :: 1 <= i < |Neighbours(center, dimension, level)| ==>
              InGrid(Neighbours(center, dimension, level)[i], dimension)
    ensures forall c :: c in Neighbours(center, dimension, level) <==>
              c == center || (InGrid(c, dimension) && Dist(c, center) <= level)
  {
    var n := Neighbours(center, dimension, level);
    var rest := Levels(center, dimension, level);
    LevelsMembers(center, dimension, level);
    LevelsDistinct(center, dimension, level);
    forall i | 1 <= i < |n|
      ensures InGrid(n[i], dimension) && Dist(n[i], center) >= 1
    {
      assert n[i] == rest[i - 1];
      assert rest[i - 1] in rest;
    }
  }

  /** Nearer rings come before farther ones. */
  lemma NeighboursOrdered(center: Coord, dimension: Coord, level: int)
    ensures forall i, j :: 0 <= i < j < |Neighbours(center, dimension, level)| ==>
              Dist(Neighbours(center, dimension, level)[i], center) <= Dist(Neighbours(center, dimension, level)[j], center)
  {
    var n := Neighbours(center, dimension, level);
    var rest := Levels(center, dimension, level);
    LevelsOrdered(center, dimension, level);
    forall i, j | 0 <= i < j < |n|
      ensures Dist(n[i], center) <= Dist(n[j], center)
    {
      assert n[j] == rest[j - 1];
      if i > 0 {
        assert n[i] == rest[i - 1];
      }
    }
  }

  /**
   * The list is no longer than the (2 * level + 1)^2 cells of the square
   * around the center, and exactly that long when the square lies in the map.
   */
  lemma NeighboursLength(center: Coord, dimension: Coord, level: nat)
    ensures |Neighbours(center, dimension, level)| <= (2 * level + 1) * (2 * level + 1)
    ensures SquareInGrid(center, level, dimension) ==>
              |Neighbours(center, dimension, level)| == (2 * level + 1) * (2 * level + 1)
  {
    LevelsLength(center, dimension, level);
    SquareRingCountClosed(level);
  }

  /** Within the rings, distance to the center never decreases. */
  lemma {:induction false} LevelsOrdered(center: Coord, dimension: Coord, level: int)
    ensures forall i, j :: 0 <= i < j < |Levels(center, dimension, level)| ==>
              Dist(Levels(center, dimension, level)[i], center) <= Dist(Levels(center, dimension, level)[j], center)
  {
    if level >= 1 {
      var prev := Levels(center, dimension, level - 1);
      var ring := RingNeighbours(center, dimension, level);
      LevelsOrdered(center, dimension, level - 1);
      LevelsMembers(center, dimension, level - 1);
      RingNeighboursSpec(center, dimension, level);
      forall i, j | 0 <= i < j < |prev + ring|
        ensures Dist((prev + ring)[i], center) <= Dist((prev + ring)[j], center)
      {
        if i < |prev| {
          assert (prev + ring)[i] in prev;
          if |prev| <= j {
            assert (prev + ring)[j] in ring;
          }
        } else {
          assert (prev + ring)[i] in ring;
          assert (prev + ring)[j] in ring;
        }
      }
    }
  }

  /** The walk of ring 1, from the top right corner. */
  lemma RingOne()
    ensures Ring(1) == [Coord(1, -1), Coord(1, 0), Coord(1, 1), Coord(0, 1),
                        Coord(-1, 1), Coord(-1, 0), Coord(-1, -1), Coord(0, -1)]
  {
    var ring := [Coord(1, -1), Coord(1, 0), Coord(1, 1), Coord(0, 1),
                 Coord(-1, 1), Coord(-1, 0), Coord(-1, -1), Coord(0, -1)];
    forall k | 0 <= k < 8
      ensures Ring(1)[k] == ring[k]
    {
    }
  }

  /** A list whose cells all lie in the map passes the bounds filter unchanged. */
  lemma {:induction false} KeepInBoundsAll(s: seq<Coord>, dimension: Coord)
    requires forall i :: 0 <= i < |s| ==> InGrid(s[i], dimension)
    ensures KeepInBounds(s, dimension) == s
  {
    if s != [] {
      KeepInBoundsAll(s[..|s| - 1], dimension);
    }
  }

  /** Ring 1 placed around (1, 1). */
  lemma RingOneAround()
    ensures Shift([Coord(1, -1), Coord(1, 0), Coord(1, 1), Coord(0, 1),
                   Coord(-1, 1), Coord(-1, 0), Coord(-1, -1), Coord(0, -1)], Coord(1, 1)) ==
            [Coord(2, 0), Coord(2, 1), Coord(2, 2), Coord(1, 2),
             Coord(0, 2), Coord(0, 1), Coord(0, 0), Coord(1, 0)]
  {
    var w := Shift([Coord(1, -1), Coord(1, 0), Coord(1, 1), Coord(0, 1),
                    Coord(-1, 1), Coord(-1, 0), Coord(-1, -1), Coord(0, -1)], Coord(1, 1));
    var cells := [Coord(2, 0), Coord(2, 1), Coord(2, 2), Coord(1, 2),
                  Coord(0, 2), Coord(0, 1), Coord(0, 0), Coord(1, 0)];
    forall k | 0 <= k < 8
      ensures w[k] == cells[k]
    {
    }
  }

  /**
   * Center (1, 1) of a 10 x 10 map at level 1.  (Stated for variables
   * bound to these values, so that the verifier does not unfold the
   * definitions on the constants by itself.)
   */
  lemma NeighboursExample(center: Coord, dimension: Coord, level: int)
    requires center == Coord(1, 1) && dimension == Coord(10, 10) && level == 1
    ensures Neighbours(center, dimension, level) ==
              [center] + [Coord(2, 0), Coord(2, 1), Coord(2, 2), Coord(1, 2),
                          Coord(0, 2), Coord(0, 1), Coord(0, 0), Coord(1, 0)]
  {
    var cells := [Coord(2, 0), Coord(2, 1), Coord(2, 2), Coord(1, 2),
                  Coord(0, 2), Coord(0, 1), Coord(0, 0), Coord(1, 0)];
    assert RingNeighbours(center, dimension, level) == cells by {
      RingOne();
      RingOneAround();
      KeepInBoundsAll(cells, dimension);
    }
    assert Levels(center, dimension, level - 1) == [];
    assert Levels(center, dimension, level) == cells;
  }

  /** Java's `center / tileSize` on each axis, truncating. */
  function CalculateCenterTile(center: Coord, tileSize: Coord): (r: Coord)
    requires tileSize.x != 0 && tileSize.y != 0
    ensures 0 <= center.x && 0 < tileSize.x ==> 0 <= r.x && r.x * tileSize.x <= center.x < (r.x + 1) * tileSize.x
    ensures 0 <= center.y && 0 < tileSize.y ==> 0 <= r.y && r.y * tileSize.y <= center.y < (r.y + 1) * tileSize.y
  {
    DivBounds(center.x, tileSize.x);
    DivBounds(center.y, tileSize.y);
    Coord(JavaDiv(center.x, tileSize.x), JavaDiv(center.y, tileSize.y))
  }

  /**
   * A pixel inside a map of `dimension` tiles of `tileSize` pixels lies on
   * a tile of the map: the tile under the screen center is a cell.
   */
  lemma CenterTileInGrid(center: Coord, tileSize: Coord, dimension: Coord)
    requires tileSize.x > 0 && tileSize.y > 0
    requires 0 <= center.x < dimension.x * tileSize.x && 0 <= center.y < dimension.y * tileSize.y
    ensures InGrid(CalculateCenterTile(center, tileSize), dimension)
  {
    var r := CalculateCenterTile(center, tileSize);
    if r.x >= dimension.x {
      MulMonotone(dimension.x, r.x, tileSize.x);
    }
    if r.y >= dimension.y {
      MulMonotone(dimension.y, r.y, tileSize.y);
    }
  }

  class LazyLoader {
    var tileMapView: TileMapView
    var viewport: Viewport

    /** LazyLoader(tileMapView, viewport) */
    constructor (tileMapView: TileMapView, viewport: Viewport)
      ensures this.tileMapView == tileMapView && this.viewport == viewport
    {
      this.tileMapView := tileMapView;
      this.viewport := viewport;
    }

    /**
     * calculateLoadingLevel(tileSize): how many rings cover half of the
     * longer viewport side, in whole tiles; a square viewport uses y.
     */
    function CalculateLoadingLevel(tileSize: Coord): (r: int)
      reads this, viewport
      requires viewport.size.x > viewport.size.y ==> tileSize.x != 0
      requires viewport.size.x <= viewport.size.y ==> tileSize.y != 0
      ensures viewport.size.x > viewport.size.y && viewport.size.x >= 0 && tileSize.x > 0 ==>
                0 <= r && r * tileSize.x <= viewport.size.x / 2 < (r + 1) * tileSize.x
      ensures viewport.size.x <= viewport.size.y && viewport.size.y >= 0 && tileSize.y > 0 ==>
                0 <= r && r * tileSize.y <= viewport.size.y / 2 < (r + 1) * tileSize.y
    {
      var vx := viewport.size.x;
      var vy := viewport.size.y;
      if vx > vy then
        DivBounds(vx / 2, tileSize.x);
        JavaDiv(JavaDiv(vx, 2), tileSize.x)
      else
        DivBounds(vy / 2, tileSize.y);
        JavaDiv(JavaDiv(vy, 2), tileSize.y)
    }

    /**
     * calculateNeighboursOfLevel(centerTile, dimension, level): the four
     * loops of the ring walk, each appending the cells that pass
     * checkCoordinate.  For a level below 1 no loop runs.
     */
    method CalculateNeighboursOfLevel(centerTile: Coord, dimension: Coord, level: int) returns (neighbours: seq<Coord>)
      ensures neighbours == RingNeighbours(centerTile, dimension, level)
    {
      neighbours := [];
      var x := level;
      var y := -level;
      ghost var r := Reach(level);
      while y < level
        invariant x == level && -level <= y <= r
        invariant neighbours == DownSide(centerTile, dimension, level, y)
      {
        var temp := Coord(x + centerTile.x, y + centerTile.y);
        DownStep(centerTile, dimension, level, y, neighbours, temp);
        if CheckCoordinate(temp, dimension) {
          neighbours := neighbours + [temp];
        }
        y := y + 1;
      }
      assert y == r;
      ghost var before := DownSide(centerTile, dimension, level, r);
      while x > -level
        invariant y == r && -r <= x <= level
        invariant neighbours == before + LeftSide(centerTile, dimension, level, x)
      {
        var temp := Coord(x + centerTile.x, y + centerTile.y);
        LeftStep(centerTile, dimension, level, x, before, neighbours, temp);
        if CheckCoordinate(temp, dimension) {
          neighbours := neighbours + [temp];
        }
        x := x - 1;
      }
      assert x == -r;
      before := before + LeftSide(centerTile, dimension, level, -r);
      while y > -level
        invariant x == -r && -level <= y <= r
        invariant neighbours == before + UpSide(centerTile, dimension, level, y)
      {
        var temp := Coord(x + centerTile.x, y + centerTile.y);
        UpStep(centerTile, dimension, level, y, before, neighbours, temp);
        if CheckCoordinate(temp, dimension) {
          neighbours := neighbours + [temp];
        }
        y := y - 1;
      }
      assert y == -level;
      before := before + UpSide(centerTile, dimension, level, -level);
      while x < level
        invariant y == -level && -r <= x <= level
        invariant neighbours == before + RightSide(centerTile, dimension, level, x)
      {
        var temp := Coord(x + centerTile.x, y + centerTile.y);
        RightStep(centerTile, dimension, level, x, before, neighbours, temp);
        if CheckCoordinate(temp, dimension) {
          neighbours := neighbours + [temp];
        }
        x := x + 1;
      }
      assert x == level;
      SidesMakeRing(centerTile, dimension, level);
    }

    /**
     * calculateNeighbours(centerTile, dimension, level): the center tile,
     * then the rings 1 to `level` one after the other.
     */
    method CalculateNeighbours(centerTile: Coord, dimension: Coord, level: int) returns (neighbours: seq<Coord>)
      ensures neighbours == Neighbours(centerTile, dimension, level)
    {
      neighbours := [centerTile];
      var i := 1;
      while i <= level
        invariant 1 <= i && (level >= 1 ==> i <= level + 1) && (level < 1 ==> i == 1)
        invariant neighbours == [centerTile] + Levels(centerTile, dimension, i - 1)
      {
        var ring := CalculateNeighboursOfLevel(centerTile, dimension, i);
        neighbours := neighbours + ring;
        i := i + 1;
      }
    }
  }

  /** The one cell the walk visits, kept when checkCoordinate accepts it. */
  function Visit(cell: Coord, dimension: Coord): seq<Coord>
  {
    if CheckCoordinate(cell, dimension) then [cell] else []
  }

  /** Where the first loop stops: row `level`, or row -level when the loops do not run. */
  function Reach(level: int): int
  {
    if level >= 1 then level else -level
  }

  /** The in-bounds cells of the right column (x = level) from row -level down to row y - 1. */
  function DownSide(center: Coord, dimension: Coord, level: int, y: int): seq<Coord>
    decreases y + level
  {
    if y <= -level then []
    else
      var cell := Coord(level + center.x, y - 1 + center.y);
      DownSide(center, dimension, level, y - 1) + Visit(cell, dimension)
  }

  /** The in-bounds cells of the bottom row (y = level) from column level left to column x + 1. */
  function LeftSide(center: Coord, dimension: Coord, level: int, x: int): seq<Coord>
    decreases level - x
  {
    if x >= level then []
    else
      var cell := Coord(x + 1 + center.x, level + center.y);
      LeftSide(center, dimension, level, x + 1) + Visit(cell, dimension)
  }

  /** The in-bounds cells of the left column (x = -level) from row level up to row y + 1. */
  function UpSide(center: Coord, dimension: Coord, level: int, y: int): seq<Coord>
    decreases level - y
  {
    if y >= level then []
    else
      var cell := Coord(-level + center.x, y + 1 + center.y);
      UpSide(center, dimension, level, y + 1) + Visit(cell, dimension)
  }

  /** The in-bounds cells of the top row (y = -level) from column -level right to column x - 1. */
  function RightSide(center: Coord, dimension: Coord, level: int, x: int): seq<Coord>
    decreases x + level
  {
    if x <= -level then []
    else
      var cell := Coord(x - 1 + center.x, -level + center.y);
      RightSide(center, dimension, level, x - 1) + Visit(cell, dimension)
  }

  /** One pass of the first loop: visiting row y of the right column extends DownSide. */
  lemma DownStep(center: Coord, dimension: Coord, level: int, y: int, acc: seq<Coord>, cell: Coord)
    requires y >= -level && acc == DownSide(center, dimension, level, y)
    requires cell == Coord(level + center.x, y + center.y)
    ensures acc + Visit(cell, dimension) == DownSide(center, dimension, level, y + 1)
    ensures CheckCoordinate(cell, dimension) ==> acc + [cell] == DownSide(center, dimension, level, y + 1)
    ensures !CheckCoordinate(cell, dimension) ==> acc == DownSide(center, dimension, level, y + 1)
  {
  }

  /** One pass of the second loop: visiting column x of the bottom row extends LeftSide. */
  lemma LeftStep(center: Coord, dimension: Coord, level: int, x: int, before: seq<Coord>, acc: seq<Coord>, cell: Coord)
    requires x <= level && acc == before + LeftSide(center, dimension, level, x)
    requires cell == Coord(x + center.x, level + center.y)
    ensures acc + Visit(cell, dimension) == before + LeftSide(center, dimension, level, x - 1)
    ensures CheckCoordinate(cell, dimension) ==> acc + [cell] == before + LeftSide(center, dimension, level, x - 1)
    ensures !CheckCoordinate(cell, dimension) ==> acc == before + LeftSide(center, dimension, level, x - 1)
  {
    AppendAssoc(before, LeftSide(center, dimension, level, x), Visit(cell, dimension));
  }

  /** One pass of the third loop: visiting row y of the left column extends UpSide. */
  lemma UpStep(center: Coord, dimension: Coord, level: int, y: int, before: seq<Coord>, acc: seq<Coord>, cell: Coord)
    requires y <= level && acc == before + UpSide(center, dimension, level, y)
    requires cell == Coord(-level + center.x, y + center.y)
    ensures acc + Visit(cell, dimension) == before + UpSide(center, dimension, level, y - 1)
    ensures CheckCoordinate(cell, dimension) ==> acc + [cell] == before + UpSide(center, dimension, level, y - 1)
    ensures !CheckCoordinate(cell, dimension) ==> acc == before + UpSide(center, dimension, level, y - 1)
  {
    AppendAssoc(before, UpSide(center, dimension, level, y), Visit(cell, dimension));
  }

  /** One pass of the fourth loop: visiting column x of the top row extends RightSide. */
  lemma RightStep(center: Coord, dimension: Coord, level: int, x: int, before: seq<Coord>, acc: seq<Coord>, cell: Coord)
    requires x >= -level && acc == before + RightSide(center, dimension, level, x)
    requires cell == Coord(x + center.x, -level + center.y)
    ensures acc + Visit(cell, dimension) == before + RightSide(center, dimension, level, x + 1)
    ensures CheckCoordinate(cell, dimension) ==> acc + [cell] == before + RightSide(center, dimension, level, x + 1)
    ensures !CheckCoordinate(cell, dimension) ==> acc == before + RightSide(center, dimension, level, x + 1)
  {
    AppendAssoc(before, RightSide(center, dimension, level, x), Visit(cell, dimension));
  }

  /** Appending to the last part of a concatenation appends to the whole. */
  lemma AppendAssoc(a: seq<Coord>, b: seq<Coord>, c: seq<Coord>)
    ensures a + (b + c) == (a + b) + c
  {
  }

  /**
   * The first k steps of the walk around ring `level`, as the four loops
   * take them: each step appends its cell when checkCoordinate accepts it.
   */
  function Walked(center: Coord, dimension: Coord, level: int, k: int): seq<Coord>
    requires 0 <= k <= WalkLength(level)
    decreases k
  {
    if k == 0 then []
    else
      var cell := Offset(RingAt(level, k - 1), center.x, center.y);
      Walked(center, dimension, level, k - 1) + Visit(cell, dimension)
  }

  /** The number of steps of the walk around ring `level`. */
  function WalkLength(level: int): nat
  {
    if level >= 1 then 8 * level else 0
  }

  /** Walking k steps keeps the in-bounds cells among the first k cells of the shifted ring. */
  lemma {:induction false} WalkedFilters(center: Coord, dimension: Coord, level: int, k: int)
    requires 0 <= k <= |Ring(level)|
    ensures Walked(center, dimension, level, k) == KeepInBounds(Shift(Ring(level), center)[..k], dimension)
  {
    var walk := Shift(Ring(level), center);
    if k == 0 {
      assert walk[..0] == [];
    } else {
      WalkedFilters(center, dimension, level, k - 1);
      WalkedFiltersStep(center, dimension, level, k, walk);
    }
  }

  /** One step of WalkedFilters, over any walk whose cell k - 1 is the shifted ring cell. */
  lemma WalkedFiltersStep(center: Coord, dimension: Coord, level: int, k: int, walk: seq<Coord>)
    requires level >= 1 && 0 < k <= 8 * level && k <= |walk|
    requires walk[k - 1] == Offset(RingAt(level, k - 1), center.x, center.y)
    requires Walked(center, dimension, level, k - 1) == KeepInBounds(walk[..k - 1], dimension)
    ensures Walked(center, dimension, level, k) == KeepInBounds(walk[..k], dimension)
  {
    FilterSnoc(walk, k, dimension);
  }

  /** A prefix of length k is the prefix of length k - 1 followed by element k - 1. */
  lemma SliceSnoc<T>(s: seq<T>, k: int)
    requires 0 < k <= |s|
    ensures s[..k] == s[..k - 1] + [s[k - 1]]
  {
  }

  /** Filtering a prefix one element longer appends that element when it is in bounds. */
  lemma FilterSnoc(s: seq<Coord>, k: int, dimension: Coord)
    requires 0 < k <= |s|
    ensures KeepInBounds(s[..k], dimension) ==
              KeepInBounds(s[..k - 1], dimension) + (if CheckCoordinate(s[k - 1], dimension) then [s[k - 1]] else [])
  {
    SliceSnoc(s, k);
    KeepInBoundsAppend(s[..k - 1], s[k - 1], dimension);
  }

  /** The whole walk is the ring's in-bounds cells in walk order. */
  lemma WalkedWhole(center: Coord, dimension: Coord, level: int)
    ensures Walked(center, dimension, level, |Ring(level)|) == RingNeighbours(center, dimension, level)
  {
    var walk := Shift(Ring(level), center);
    WalkedFilters(center, dimension, level, |Ring(level)|);
    assert walk[..|Ring(level)|] == walk;
  }

  /** The first loop walks the right column: the first 2 * level steps. */
  lemma {:induction false} DownSideWalk(center: Coord, dimension: Coord, level: int, y: int)
    requires level >= 1 && -level <= y <= level
    ensures DownSide(center, dimension, level, y) == Walked(center, dimension, level, y + level)
    decreases y + level
  {
    if y > -level {
      DownSideWalk(center, dimension, level, y - 1);
      WalkedDown(center, dimension, level, y);
      DownStep(center, dimension, level, y - 1, DownSide(center, dimension, level, y - 1),
               Coord(level + center.x, y - 1 + center.y));
    }
  }

  /** The second loop walks the bottom row: steps 2 * level to 4 * level. */
  lemma {:induction false} LeftSideWalk(center: Coord, dimension: Coord, level: int, x: int, k: int, before: seq<Coord>)
    requires level >= 1 && -level <= x <= level && k == 3 * level - x
    requires before == Walked(center, dimension, level, 2 * level)
    ensures before + LeftSide(center, dimension, level, x) == Walked(center, dimension, level, k)
    decreases level - x
  {
    if x < level {
      LeftSideWalk(center, dimension, level, x + 1, k - 1, before);
      WalkedLeft(center, dimension, level, x, k);
      LeftStep(center, dimension, level, x + 1, before, before + LeftSide(center, dimension, level, x + 1),
               Coord(x + 1 + center.x, level + center.y));
    } else {
      assert before + [] == before;
    }
  }

  /** The third loop walks the left column: steps 4 * level to 6 * level. */
  lemma {:induction false} UpSideWalk(center: Coord, dimension: Coord, level: int, y: int, k: int, before: seq<Coord>)
    requires level >= 1 && -level <= y <= level && k == 5 * level - y
    requires before == Walked(center, dimension, level, 4 * level)
    ensures before + UpSide(center, dimension, level, y) == Walked(center, dimension, level, k)
    decreases level - y
  {
    if y < level {
      UpSideWalk(center, dimension, level, y + 1, k - 1, before);
      WalkedUp(center, dimension, level, y, k);
      UpStep(center, dimension, level, y + 1, before, before + UpSide(center, dimension, level, y + 1),
             Coord(-level + center.x, y + 1 + center.y));
    } else {
      assert before + [] == before;
    }
  }

  /** The fourth loop walks the top row: steps 6 * level to 8 * level. */
  lemma {:induction false} RightSideWalk(center: Coord, dimension: Coord, level: int, x: int, k: int, before: seq<Coord>)
    requires level >= 1 && -level <= x <= level && k == 7 * level + x
    requires before == Walked(center, dimension, level, 6 * level)
    ensures before + RightSide(center, dimension, level, x) == Walked(center, dimension, level, k)
    decreases x + level
  {
    if x > -level {
      RightSideWalk(center, dimension, level, x - 1, k - 1, before);
      WalkedRight(center, dimension, level, x, k);
      RightStep(center, dimension, level, x - 1, before, before + RightSide(center, dimension, level, x - 1),
                Coord(x - 1 + center.x, -level + center.y));
    } else {
      assert before + [] == before;
    }
  }

  /** Step y + level - 1 of the walk visits row y - 1 of the right column. */
  lemma WalkedDown(center: Coord, dimension: Coord, level: int, y: int)
    requires level >= 1 && -level < y <= level
    ensures Walked(center, dimension, level, y + level) ==
              Walked(center, dimension, level, y + level - 1) + Visit(Coord(level + center.x, y - 1 + center.y), dimension)
  {
    assert RingAt(level, y + level - 1) == Coord(level, y - 1);
  }

  /** Step 3 * level - x - 1 of the walk visits column x + 1 of the bottom row. */
  lemma WalkedLeft(center: Coord, dimension: Coord, level: int, x: int, k: int)
    requires level >= 1 && -level <= x < level && k == 3 * level - x
    ensures Walked(center, dimension, level, k) ==
              Walked(center, dimension, level, k - 1) + Visit(Coord(x + 1 + center.x, level + center.y), dimension)
  {
    assert RingAt(level, k - 1) == Coord(x + 1, level);
  }

  /** Step 5 * level - y - 1 of the walk visits row y + 1 of the left column. */
  lemma WalkedUp(center: Coord, dimension: Coord, level: int, y: int, k: int)
    requires level >= 1 && -level <= y < level && k == 5 * level - y
    ensures Walked(center, dimension, level, k) ==
              Walked(center, dimension, level, k - 1) + Visit(Coord(-level + center.x, y + 1 + center.y), dimension)
  {
    assert RingAt(level, k - 1) == Coord(-level, y + 1);
  }

  /** Step 7 * level + x - 1 of the walk visits column x - 1 of the top row. */
  lemma WalkedRight(center: Coord, dimension: Coord, level: int, x: int, k: int)
    requires level >= 1 && -level < x <= level && k == 7 * level + x
    ensures Walked(center, dimension, level, k) ==
              Walked(center, dimension, level, k - 1) + Visit(Coord(x - 1 + center.x, -level + center.y), dimension)
  {
    assert RingAt(level, k - 1) == Coord(x - 1, -level);
  }

  /** The four loops together leave the ring's in-bounds cells in walk order. */
  lemma SidesMakeRing(center: Coord, dimension: Coord, level: int)
    ensures DownSide(center, dimension, level, Reach(level)) + LeftSide(center, dimension, level, -Reach(level)) +
            UpSide(center, dimension, level, -level) + RightSide(center, dimension, level, level) ==
              RingNeighbours(center, dimension, level)
  {
    if level >= 1 {
      DownSideWalk(center, dimension, level, level);
      var down := DownSide(center, dimension, level, level);
      LeftSideWalk(center, dimension, level, -level, 4 * level, down);
      var left := down + LeftSide(center, dimension, level, -level);
      UpSideWalk(center, dimension, level, -level, 6 * level, left);
      var up := left + UpSide(center, dimension, level, -level);
      RightSideWalk(center, dimension, level, level, 8 * level, up);
      WalkedWhole(center, dimension, level);
    }
  }

  /**
   * The static field `lazyLoader`: the one instance handed out by
   * LazyLoader.lazyLoader(tileMapView, viewport).
   */
  class LazyLoaderSlot {
    var instance: LazyLoader?

    constructor ()
      ensures instance == null
    {
      instance := null;
    }

    /**
     * lazyLoader(tileMapView, viewport): hands out the stored loader when
     * it was made for the same view and viewport objects, otherwise stores
     * and hands out a new one.
     */
    method Obtain(tileMapView: TileMapView, viewport: Viewport) returns (r: LazyLoader)
      modifies this
      ensures r == instance
      ensures r.tileMapView == tileMapView && r.viewport == viewport
      ensures old(instance) != null && old(instance.tileMapView) == tileMapView && old(instance.viewport) == viewport ==>
                r == old(instance)
      ensures !(old(instance) != null && old(instance.tileMapView) == tileMapView && old(instance.viewport) == viewport) ==>
                fresh(r)
    {
      if instance == null {
        instance := new LazyLoader(tileMapView, viewport);
      }
      if instance.tileMapView != tileMapView || instance.viewport != viewport {
        instance := new LazyLoader(tileMapView, viewport);
      }
      r := instance;
    }
  }
}
