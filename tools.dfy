/**
 * Tools.java, plus the integer helpers the model needs to follow Java
 * arithmetic.
 */
module Tools {
  import opened Coordinates

  function Abs(a: int): (r: nat)
    ensures r == a || r == -a
  {
    if a < 0 then -a else a
  }

  function Min(a: int, b: int): (r: int)
    ensures r <= a && r <= b && (r == a || r == b)
  {
    if a <= b then a else b
  }

  function Max(a: int, b: int): (r: int)
    ensures r >= a && r >= b && (r == a || r == b)
  {
    if a >= b then a else b
  }

  /**
   * Java's integer `/`, which truncates toward zero (Dafny's `/` is
   * Euclidean).  Division by zero throws in Java; callers must exclude it.
   */
  function JavaDiv(a: int, b: int): (q: int)
    requires b != 0
    ensures Abs(q) == Abs(a) / Abs(b)
    ensures q < 0 ==> (a < 0) != (b < 0)
    ensures (a < 0) != (b < 0) ==> q <= 0
    ensures 0 <= a && 0 < b ==> q == a / b
  {
    var m := Abs(a) / Abs(b);
    DivNonNegative(Abs(a), Abs(b));
    if (a < 0) == (b < 0) then m else -m
  }

  /**
   * Java's `(int)` cast of a floating-point value: the fraction is dropped,
   * toward zero.
   */
  function Trunc(r: real): (t: int)
    ensures Abs(t) as real <= (if r < 0.0 then -r else r) < Abs(t) as real + 1.0
    ensures t < 0 ==> r < 0.0
    ensures r < 0.0 ==> t <= 0
  {
    if r >= 0.0 then r.Floor else -((-r).Floor)
  }

  /** An integral value survives the cast unchanged. */
  lemma TruncIntegral(n: int)
    ensures Trunc(n as real) == n
  {
  }

  /** ArrayList.indexOf: the position of the first x in s, or -1. */
  function IndexOf<T(==)>(s: seq<T>, x: T): (i: int)
    ensures -1 <= i < |s|
    ensures i == -1 <==> x !in s
    ensures 0 <= i ==> s[i] == x && x !in s[..i]
  {
    if s == [] then -1
    else if s[0] == x then 0
    else
      var k := IndexOf(s[1..], x);
      assert s == [s[0]] + s[1..];
      if k == -1 then -1
      else
        assert s[..k + 1] == [s[0]] + s[1..][..k];
        k + 1
  }

  lemma DivNonNegative(n: nat, d: nat)
    requires d > 0
    ensures n / d >= 0
  {
  }

  /** a * d grows by at least d for every unit step of a. */
  lemma MulStep(a: int, b: int, d: int)
    requires a < b && d > 0
    ensures a * d + d <= b * d
  {
    var k := b - a;
    assert b * d == a * d + k * d;
    assert k * d >= d by {
      assert k * d == (k - 1) * d + d;
      assert (k - 1) * d >= 0;
    }
  }

  lemma MulMonotone(a: int, b: int, d: int)
    requires a <= b && d >= 0
    ensures a * d <= b * d
  {
    assert b * d == a * d + (b - a) * d;
  }

  /** The quotient of a non-negative division, times the divisor, falls within one divisor of the dividend. */
  lemma DivBounds(n: int, d: int)
    ensures n >= 0 && d > 0 ==> n / d >= 0 && (n / d) * d <= n < (n / d + 1) * d
  {
    if n >= 0 && d > 0 {
      var q, r := n / d, n % d;
      assert n == q * d + r;
      assert (q + 1) * d == q * d + d;
      if q < 0 {
        MulStep(q, 0, d);
      }
    }
  }

  /** Euclidean division has one quotient and one remainder. */
  lemma DivModUnique(k: int, d: int, q: int, r: int)
    requires d > 0 && 0 <= r < d && k == q * d + r
    ensures k / d == q && k % d == r
  {
    var q', r' := k / d, k % d;
    assert k == q' * d + r';
    if q' < q {
      MulStep(q', q, d);
    } else if q < q' {
      MulStep(q, q', d);
    }
  }

  /** x-outer, y-inner scan order over a grid: `a` is visited before `b`. */
  predicate ScanBefore(a: Coord, b: Coord)
  {
    a.x < b.x || (a.x == b.x && a.y < b.y)
  }

  predicate InGrid(c: Coord, dim: Coord)
  {
    0 <= c.x < dim.x && 0 <= c.y < dim.y
  }

  /**
   * convertMatrixPos2Int, as written: the index of a tile's view among the
   * children of the TileMapView, computed as x * dim.x + y.
   */
  function ConvertMatrixPos2Int(c: Coord, dim: Coord): (k: int)
    ensures InGrid(c, dim) ==> 0 <= k
    ensures dim.x == dim.y ==> k == ChildIndex(c, dim)
  {
    if InGrid(c, dim) then MulMonotone(0, c.x, dim.x); c.x * dim.x + c.y
    else c.x * dim.x + c.y
  }

  /**
   * The child index the views really have: TileMap2ViewFactory adds one view
   * per tile with x outer and y inner, so tile (x, y) is child x * dim.y + y.
   */
  function ChildIndex(c: Coord, dim: Coord): int
  {
    c.x * dim.y + c.y
  }

  /** The tile whose view is child number k. */
  function ChildPos(k: int, dim: Coord): Coord
    requires dim.y > 0
  {
    Coord(k / dim.y, k % dim.y)
  }

  lemma ChildIndexBounds(c: Coord, dim: Coord)
    requires InGrid(c, dim)
    ensures 0 <= ChildIndex(c, dim) < dim.x * dim.y
  {
    MulStep(c.x, dim.x, dim.y);
    MulMonotone(0, c.x, dim.y);
  }

  /** Child numbers and grid cells correspond one to one. */
  lemma ChildPosInverse(k: int, dim: Coord)
    requires 0 <= k < dim.x * dim.y && dim.y > 0
    ensures InGrid(ChildPos(k, dim), dim)
    ensures ChildIndex(ChildPos(k, dim), dim) == k
  {
    var q, r := k / dim.y, k % dim.y;
    assert k == q * dim.y + r;
    if dim.x <= q {
      MulMonotone(dim.x, q, dim.y);
    }
    if q < 0 {
      MulStep(q, 0, dim.y);
    }
  }

  lemma ChildIndexInverse(c: Coord, dim: Coord)
    requires InGrid(c, dim)
    ensures ChildPos(ChildIndex(c, dim), dim) == c
  {
    DivModUnique(ChildIndex(c, dim), dim.y, c.x, c.y);
  }

  lemma ChildIndexInjective(a: Coord, b: Coord, dim: Coord)
    requires InGrid(a, dim) && InGrid(b, dim) && ChildIndex(a, dim) == ChildIndex(b, dim)
    ensures a == b
  {
    ChildIndexInverse(a, dim);
    ChildIndexInverse(b, dim);
  }

  /** The child index follows the x-outer, y-inner scan order. */
  lemma ChildIndexFollowsScan(a: Coord, b: Coord, dim: Coord)
    requires InGrid(a, dim) && InGrid(b, dim)
    ensures ScanBefore(a, b) <==> ChildIndex(a, dim) < ChildIndex(b, dim)
  {
    if a.x < b.x {
      MulStep(a.x, b.x, dim.y);
    } else if b.x < a.x {
      MulStep(b.x, a.x, dim.y);
    }
  }

  /** On a square grid, convertMatrixPos2Int is the child index. */
  lemma ConvertMatrixPos2IntSquare(c: Coord, n: int)
    requires InGrid(c, Coord(n, n))
    ensures ConvertMatrixPos2Int(c, Coord(n, n)) == ChildIndex(c, Coord(n, n))
    ensures 0 <= ConvertMatrixPos2Int(c, Coord(n, n)) < n * n
  {
    ChildIndexBounds(c, Coord(n, n));
  }

  /**
   * On a 2 x 3 grid, tile (1, 0) is sent to child 2, which is the view of
   * tile (0, 2); its own view is child 3.
   */
  lemma ConvertMatrixPos2IntMisroutes()
    ensures ConvertMatrixPos2Int(Coord(1, 0), Coord(2, 3)) == ChildIndex(Coord(0, 2), Coord(2, 3))
    ensures ChildIndex(Coord(1, 0), Coord(2, 3)) == 3
  {
  }

  /** On a 3 x 2 grid, tile (2, 1) is sent to child 7, past the last of its 6 views. */
  lemma ConvertMatrixPos2IntOverruns()
    ensures InGrid(Coord(2, 1), Coord(3, 2))
    ensures ConvertMatrixPos2Int(Coord(2, 1), Coord(3, 2)) >= 3 * 2
  {
  }

  /**
   * calculateVectorLength, squared: the source takes the square root of this
   * value, and the square root is strictly increasing, so comparing squared
   * lengths orders vectors exactly as comparing lengths does.
   */
  function SquaredLength(c: Coord): (r: int)
    ensures r >= 0
    ensures r == 0 <==> c == Coord(0, 0)
  {
    SquareNonNegative(c.x);
    SquareNonNegative(c.y);
    c.x * c.x + c.y * c.y
  }

  lemma SquareNonNegative(a: int)
    ensures a * a >= 0
    ensures a != 0 ==> a * a > 0
  {
    if a < 0 {
      assert a * a == (-a) * (-a);
    }
  }
}
