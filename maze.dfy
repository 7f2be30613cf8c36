/**
 * What the three stealth maze planners (breadth-first, depth-first and
 * Dijkstra) share: the explicit eight-way neighbour generator, the goal
 * test "one king's move from the goal", and the plan check that asks for a
 * new route once a unit other than a town hall stands on it.  The three
 * agents carry identical copies of these helpers; only their passability
 * rule differs (the Dijkstra planner also refuses squares with units).
 */
module Maze {
  import opened Grid
  import opened DistanceMetric
  import opened Paths

  /** `isValid`: on the map, not a resource, and (for the Dijkstra planner) free of units. */
  function IsValid(w: World, t: Topology, x: int, y: int): bool
  {
    match t
    case UnitsBlock => (0 <= x < w.width && 0 <= y < w.height) && Cell(x, y) !in w.resources && Cell(x, y) !in w.occupant
    case _ => (0 <= x < w.width && 0 <= y < w.height) && Cell(x, y) !in w.resources
  }

  /** Adds `c` to `s` when it is valid, as each line of `getAdjacentVertices` does. */
  function AddIfValid(w: World, t: Topology, s: set<Cell>, c: Cell): set<Cell>
  {
    if IsValid(w, t, c.x, c.y) then s + {c} else s
  }

  /**
   * `getAdjacentVertices`: the eight squares around `v`, tried in the
   * source's order, keeping the valid ones.  For the maze planners' two
   * rules this is exactly the neighbour relation the searches are proved
   * against.
   */
  function GetAdjacentVertices(w: World, t: Topology, v: Cell): (r: set<Cell>)
    requires t == ResourcesBlock || t == UnitsBlock
    ensures r == NeighbourSet(w, t, v)
  {
    var x, y := v.x, v.y;
    var s0: set<Cell> := {};
    var s1 := AddIfValid(w, t, s0, Cell(x, y - 1));
    var s2 := AddIfValid(w, t, s1, Cell(x + 1, y - 1));
    var s3 := AddIfValid(w, t, s2, Cell(x + 1, y));
    var s4 := AddIfValid(w, t, s3, Cell(x + 1, y + 1));
    var s5 := AddIfValid(w, t, s4, Cell(x, y + 1));
    var s6 := AddIfValid(w, t, s5, Cell(x - 1, y + 1));
    var s7 := AddIfValid(w, t, s6, Cell(x - 1, y));
    var s8 := AddIfValid(w, t, s7, Cell(x - 1, y - 1));
    assert s8 == NeighbourSet(w, t, v) by {
      forall c
        ensures c in s8 <==> c in NeighbourSet(w, t, v)
      {
        CandidatesSpec(v, c);
      }
    }
    s8
  }

  /** `isAdjacent`: the two squares are one king's move apart. */
  predicate IsAdjacent(a: Cell, b: Cell)
  {
    Max(Abs(a.x - b.x), Abs(a.y - b.y)) == 1
  }

  /** Adjacency is symmetric and never holds between a square and itself. */
  lemma {:induction false} IsAdjacentSpec(a: Cell, b: Cell)
    ensures IsAdjacent(a, b) <==> Chebyshev(a, b) == 1
    ensures IsAdjacent(a, b) <==> IsAdjacent(b, a)
    ensures IsAdjacent(a, b) ==> a != b
  {
    MetricAxioms(a, b);
  }

  /** A plan square blocks the route when a unit stands on it that is not a town hall. */
  predicate Blocked(w: World, v: Cell)
    requires Consistent(w)
  {
    IsUnitAt(w, v) && !AtTownHall(w, v)
  }

  /**
   * `shouldReplacePlan`: pops a copy of the plan stack, top first, and asks
   * for a new plan at the first blocked square.
   */
  method ShouldReplacePlan(w: World, plan: seq<Cell>) returns (replan: bool)
    requires Consistent(w)
    ensures replan <==> exists i :: 0 <= i < |plan| && Blocked(w, plan[i])
  {
    var tmp := plan;
    while |tmp| > 0
      invariant tmp == plan[|plan| - |tmp|..]
      invariant forall i :: 0 <= i < |plan| - |tmp| ==> !Blocked(w, plan[i])
    {
      var vertex := tmp[0];
      tmp := tmp[1..];
      if IsUnitAt(w, vertex) && !AtTownHall(w, vertex) {
        return true;
      }
    }
    return false;
  }

  /** Every edge of the node was recorded with cost one, as both uninformed planners do. */
  predicate UnitEdges(p: Path)
  {
    match p
    case Root(_, _) => true
    case Extend(_, e, _, q) => e == 1.0 && UnitEdges(q)
  }

  /** With unit edges, a node's accumulated cost is its number of moves. */
  lemma {:induction false} UnitEdgesCost(p: Path)
    requires UnitEdges(p)
    ensures TrueCost(p) == Steps(p) as real
  {
    match p
    case Root(_, _) =>
    case Extend(_, _, _, q) =>
      UnitEdgesCost(q);
      assert Cells(p) == Cells(q) + [p.dest];
  }

  /** Discovering a new square of the universe leaves fewer undiscovered ones. */
  lemma {:induction false} FewerUndiscovered(u: set<Cell>, a: set<Cell>, b: set<Cell>)
    requires a < b <= u
    ensures |u - b| < |u - a|
  {
    assert b == a + (b - a);
    assert |b - a| > 0;
    var x :| x in b - a;
    assert u - b <= (u - a) - {x};
    Paths.SubsetCard(u - b, (u - a) - {x});
  }
}
