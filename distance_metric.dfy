/**
 * The four grid distances of the maze utilities.  The source casts each
 * result to a float; every value here is a whole number, which a float
 * holds exactly as long as it stays below 2^24.
 */
module DistanceMetric {
  import opened Grid

  function Chebyshev(a: Cell, b: Cell): nat
  {
    Max(Abs(a.x - b.x), Abs(a.y - b.y))
  }

  function Manhattan(a: Cell, b: Cell): nat
  {
    Abs(a.x - b.x) + Abs(a.y - b.y)
  }

  /** The "euclidean" metric of `DistanceMetric`: the squared distance, no square root is taken. */
  function Euclidean(a: Cell, b: Cell): nat
  {
    (a.x - b.x) * (a.x - b.x) + (a.y - b.y) * (a.y - b.y)
  }

  function Pow(base: nat, p: nat): nat
  {
    if p == 0 then 1 else base * Pow(base, p - 1)
  }

  /** |dx|^p + |dy|^p, without the p-th root. */
  function PDistance(a: Cell, b: Cell, p: nat): nat
  {
    Pow(Abs(a.x - b.x), p) + Pow(Abs(a.y - b.y), p)
  }

  /** Chebyshev and Manhattan are symmetric and vanish exactly on equal squares. */
  lemma MetricAxioms(a: Cell, b: Cell)
    ensures Chebyshev(a, b) == Chebyshev(b, a) && Manhattan(a, b) == Manhattan(b, a)
    ensures Euclidean(a, b) == Euclidean(b, a)
    ensures Chebyshev(a, b) == 0 <==> a == b
    ensures Manhattan(a, b) == 0 <==> a == b
  {
  }

  /** The three distances bracket one another. */
  lemma MetricBounds(a: Cell, b: Cell)
    ensures Chebyshev(a, b) <= Manhattan(a, b) <= 2 * Chebyshev(a, b)
    ensures Chebyshev(a, b) * Chebyshev(a, b) <= Euclidean(a, b)
  {
    var dx, dy := a.x - b.x, a.y - b.y;
    assert dx * dx == Abs(dx) * Abs(dx);
    assert dy * dy == Abs(dy) * Abs(dy);
    if Abs(dx) <= Abs(dy) {
      assert Chebyshev(a, b) == Abs(dy);
    } else {
      assert Chebyshev(a, b) == Abs(dx);
    }
  }

  /** The p-distance generalises the other two: p = 1 is Manhattan and p = 2 is the squared Euclidean distance. */
  lemma PDistanceSpecialCases(a: Cell, b: Cell)
    ensures PDistance(a, b, 1) == Manhattan(a, b)
    ensures PDistance(a, b, 2) == Euclidean(a, b)
  {
    SquareOfAbs(a.x - b.x);
    SquareOfAbs(a.y - b.y);
  }

  lemma SquareOfAbs(d: int)
    ensures Pow(Abs(d), 1) == Abs(d)
    ensures Pow(Abs(d), 2) == d * d
  {
    var n := Abs(d);
    assert Pow(n, 1) == n * Pow(n, 0) == n;
    assert Pow(n, 2) == n * Pow(n, 1) == n * n;
    if d < 0 {
      assert n * n == (-d) * (-d) == d * d;
    }
  }
}
