/**
 * The maze `Coordinate` value: equality, its Cantor-pairing hash, the
 * neighbouring coordinates and the cardinal direction towards a neighbour.
 */
module Coordinate {
  import opened Grid
  import opened DistanceMetric

  /** Component-wise equality; it coincides with value equality of `Cell`. */
  function Equals(a: Cell, b: Cell): (r: bool)
    ensures r <==> a == b
  {
    a.x == b.x && a.y == b.y
  }

  /** The n-th triangular number. */
  function Tri(s: nat): nat
  {
    s * (s + 1) / 2
  }

  /** Cantor pairing of (x, y), on unbounded integers. */
  function HashCode(c: Cell): int
  {
    (c.x + c.y) * (c.x + c.y + 1) / 2 + c.y
  }

  function Clone(c: Cell): (r: Cell)
    ensures Equals(r, c)
  {
    Cell(c.x, c.y)
  }

  /** `getAdjacentCoordinate`: the square one step away in direction `d`. */
  function AdjacentCoordinate(c: Cell, d: Direction): (r: Cell)
    ensures Chebyshev(c, r) == 1
  {
    Shift(c, d)
  }

  /** The four neighbours reached through NORTH, SOUTH, EAST and WEST. */
  function CardinalNeighbours(c: Cell): set<Cell>
  {
    {AdjacentCoordinate(c, North), AdjacentCoordinate(c, South),
     AdjacentCoordinate(c, East), AdjacentCoordinate(c, West)}
  }

  /** `getAllAdjacentCoordinates` returns the cardinal neighbours too: diagonals are never included. */
  function AllAdjacentCoordinates(c: Cell): set<Cell>
  {
    CardinalNeighbours(c)
  }

  /**
   * The direction from `c` to `other`.  `None` is the fatal exit `getDirectionTo`
   * takes when the two are not at Chebyshev distance 1.  The x difference
   * is examined first, so a diagonal neighbour is reported as WEST or EAST.
   */
  function DirectionTo(c: Cell, other: Cell): Option<Direction>
  {
    if Chebyshev(c, other) != 1 then None
    else if c.x - other.x == 1 then Some(West)
    else if c.x - other.x == -1 then Some(East)
    else if c.y - other.y == 1 then Some(North)
    else Some(South)
  }

  predicate IsCardinal(d: Direction)
  {
    d == North || d == South || d == East || d == West
  }

  // ----- properties -----------------------------------------------------

  /** Equal coordinates hash equally (the hashCode / equals contract). */
  lemma HashRespectsEquals(a: Cell, b: Cell)
    requires Equals(a, b)
    ensures HashCode(a) == HashCode(b)
  {
  }

  lemma TriStep(s: nat)
    ensures Tri(s + 1) == Tri(s) + s + 1
  {
    var p := s * (s + 1);
    assert (s + 1) * (s + 2) == p + 2 * (s + 1);
    assert (p + 2 * (s + 1)) / 2 == p / 2 + (s + 1);
  }

  /** The triangular numbers grow faster than their index, so each diagonal gets its own range. */
  lemma {:induction false} TriGap(a: nat, b: nat)
    requires a < b
    ensures Tri(a) + a < Tri(b)
    decreases b - a
  {
    TriStep(a);
    if a + 1 < b {
      TriGap(a + 1, b);
    }
  }

  /** The hash of a square is the start of its anti-diagonal's range plus its y. */
  lemma HashIsTriangle(c: Cell)
    requires c.x + c.y >= 0
    ensures HashCode(c) == Tri(c.x + c.y) + c.y
  {
  }

  /** On non-negative coordinates the hash is injective: distinct squares never collide. */
  lemma HashInjective(a: Cell, b: Cell)
    requires a.x >= 0 && a.y >= 0 && b.x >= 0 && b.y >= 0
    requires HashCode(a) == HashCode(b)
    ensures a == b
  {
    var sa, sb := a.x + a.y, b.x + b.y;
    HashIsTriangle(a);
    HashIsTriangle(b);
    if sa < sb {
      TriGap(sa, sb);
    } else if sb < sa {
      TriGap(sb, sa);
    }
  }

  /** Every natural number `n` has a diagonal `d` whose range holds it: Tri(d) <= n < Tri(d + 1). */
  lemma {:induction false} DiagonalOf(n: nat, s: nat) returns (d: nat)
    requires Tri(s) <= n
    ensures Tri(d) <= n < Tri(d + 1)
    decreases n - Tri(s)
  {
    TriStep(s);
    if n < Tri(s + 1) {
      d := s;
    } else {
      d := DiagonalOf(n, s + 1);
    }
  }

  /**
   * The hash is onto the naturals: every natural number is the hash of a
   * square with non-negative coordinates (only one, by `HashInjective`).
   */
  lemma HashOnto(n: nat)
    ensures exists c: Cell :: c.x >= 0 && c.y >= 0 && HashCode(c) == n
  {
    var d := DiagonalOf(n, 0);
    TriStep(d);
    var y := n - Tri(d);
    var c := Cell(d - y, y);
    HashIsTriangle(c);
    assert HashCode(c) == n;
  }

  /** There are exactly four cardinal neighbours, and they are the squares at Manhattan distance 1. */
  lemma CardinalNeighboursSpec(c: Cell)
    ensures |CardinalNeighbours(c)| == 4
    ensures forall n :: n in CardinalNeighbours(c) <==> Manhattan(c, n) == 1
  {
    var nn, ss, ee, ww := Cell(c.x, c.y - 1), Cell(c.x, c.y + 1), Cell(c.x + 1, c.y), Cell(c.x - 1, c.y);
    assert CardinalNeighbours(c) == {nn, ss, ee, ww};
    assert |{nn, ss}| == 2;
    assert |{nn, ss, ee}| == 3;
    assert |{nn, ss, ee, ww}| == 4;
    forall n | Manhattan(c, n) == 1
      ensures n in CardinalNeighbours(c)
    {
      if n.x == c.x {
        assert n == nn || n == ss;
      } else {
        assert n.y == c.y;
        assert n == ee || n == ww;
      }
    }
  }

  /** A direction is reported exactly for the eight squares around `c`, and for a cardinal neighbour it leads back to it. */
  lemma DirectionToSpec(c: Cell, other: Cell)
    ensures DirectionTo(c, other).Some? <==> Chebyshev(c, other) == 1
    ensures DirectionTo(c, other).Some? ==> IsCardinal(DirectionTo(c, other).value)
    ensures Manhattan(c, other) == 1 ==> DirectionTo(c, other) == Some(DirectionOf(c, other)) && Shift(c, DirectionOf(c, other)) == other
  {
  }

  /** The cardinal direction that leads from `c` to a Manhattan neighbour. */
  function DirectionOf(c: Cell, other: Cell): Direction
  {
    if other.x < c.x then West else if other.x > c.x then East else if other.y < c.y then North else South
  }

  /** Round trip: stepping in a cardinal direction and asking for the direction back returns it. */
  lemma DirectionToRoundTrip(c: Cell, d: Direction)
    requires IsCardinal(d)
    ensures DirectionTo(c, AdjacentCoordinate(c, d)) == Some(d)
  {
  }

  /** For a diagonal neighbour the reported direction is horizontal, so following it misses the target. */
  lemma DirectionToDiagonal(c: Cell, d: Direction)
    requires !IsCardinal(d)
    ensures DirectionTo(c, AdjacentCoordinate(c, d)).Some?
    ensures Shift(c, DirectionTo(c, AdjacentCoordinate(c, d)).value) != AdjacentCoordinate(c, d)
  {
  }
}
