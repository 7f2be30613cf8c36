/**
 * Route planning of the special-operations agent: the neighbour generator,
 * the one-step direction table, best-first (A*) search over the map, and
 * the conversion of a search result into a stack of waypoints.
 *
 * The edge weight and the heuristic are the agent's hooks; here they are
 * parameters.  The heuristic is a distance from a graph package that is not
 * part of this model and is not assumed admissible, so nothing is claimed
 * about the cost of the route, only about its shape.
 */
module SpecOps {
  import opened Grid
  import opened DistanceMetric
  import opened Paths

  /** The passability rule of this planner: units block, except the target unit. */
  function Topo(target: int): Topology
  {
    UnitsBlockExceptTarget(target)
  }

  /** `c` is one of the offsets around `v` that the nested loop visits before (xOffset, yOffset). */
  predicate VisitedBefore(v: Cell, c: Cell, xOffset: int, yOffset: int)
  {
    var dx, dy := c.x - v.x, c.y - v.y;
    -1 <= dx <= 1 && -1 <= dy <= 1 && !(dx == 0 && dy == 0)
    && (dx < xOffset || (dx == xOffset && dy < yOffset))
  }

  /** `getNeighbors`: the nested offset loop keeps every passable square around `v`. */
  method GetNeighbors(w: World, target: int, v: Cell) returns (neighbors: set<Cell>)
    ensures neighbors == NeighbourSet(w, Topo(target), v)
  {
    neighbors := {};
    for xOffset := -1 to 2
      invariant forall c :: c in neighbors <==> VisitedBefore(v, c, xOffset, -1) && Passable(w, Topo(target), c)
    {
      for yOffset := -1 to 2
        invariant forall c :: c in neighbors <==> VisitedBefore(v, c, xOffset, yOffset) && Passable(w, Topo(target), c)
      {
        if !(xOffset == 0 && yOffset == 0) {
          var potential := Cell(v.x + xOffset, v.y + yOffset);
          if InBounds(w, potential) && !IsResourceAt(w, potential)
             && (!IsUnitAt(w, potential) || w.occupant[potential] == target)
          {
            neighbors := neighbors + {potential};
          }
        }
      }
    }
    forall c
      ensures c in neighbors <==> c in NeighbourSet(w, Topo(target), v)
    {
      CandidatesSpec(v, c);
    }
  }

  /** `getDirectionToMoveTo`: the direction of a one-square move, or `None` (an error is printed) for any other offset. */
  function DirectionToMoveTo(src: Cell, dst: Cell): Option<Direction>
  {
    var xDiff := dst.x - src.x;
    var yDiff := dst.y - src.y;
    if xDiff == 1 && yDiff == 1 then Some(SouthEast)
    else if xDiff == 1 && yDiff == 0 then Some(East)
    else if xDiff == 1 && yDiff == -1 then Some(NorthEast)
    else if xDiff == 0 && yDiff == 1 then Some(South)
    else if xDiff == 0 && yDiff == -1 then Some(North)
    else if xDiff == -1 && yDiff == 1 then Some(SouthWest)
    else if xDiff == -1 && yDiff == 0 then Some(West)
    else if xDiff == -1 && yDiff == -1 then Some(NorthWest)
    else None
  }

  /** A direction is produced exactly for the eight adjacent squares, and moving that way lands on `dst`. */
  lemma DirectionToMoveToSpec(src: Cell, dst: Cell)
    ensures DirectionToMoveTo(src, dst).Some? <==> Chebyshev(src, dst) == 1
    ensures DirectionToMoveTo(src, dst).Some? ==> Shift(src, DirectionToMoveTo(src, dst).value) == dst
  {
  }

  /** Round trip: the direction of a one-step move is recovered from its two ends. */
  lemma DirectionToMoveToRoundTrip(src: Cell, d: Direction)
    ensures DirectionToMoveTo(src, Shift(src, d)) == Some(d)
  {
  }

  /** `hasArrivedAtNextVertex`: there is no pending waypoint, or the unit stands on it. */
  predicate HasArrived(next: Option<Cell>, me: Cell)
  {
    next.None? || next.value == me
  }

  /** The priority-queue key: recorded estimate plus accumulated cost. */
  function Priority(p: Path): real
  {
    p.estimate + TrueCost(p)
  }

  /** The frontier's entries are non-revisiting walks from `src` whose parents are settled. */
  predicate FrontierShape(w: World, t: Topology, src: Cell, heap: seq<Path>, fin: set<Cell>)
  {
    forall j :: 0 <= j < |heap| ==>
      PathFrom(w, t, heap[j], src) && (heap[j].Extend? ==> CellsIn(heap[j].parent, fin))
  }

  /** A node pushed while expanding `cur`: one move from it, onto a square not yet settled. */
  predicate Child(w: World, t: Topology, cur: Path, fin: set<Cell>, p: Path)
  {
    p.Extend? && p.parent == cur && Linked(w, t, cur.dest, p.dest) && p.dest !in fin
  }

  /**
   * What the expansion records for a pushed node: a child of `cur` carrying
   * the edge weight and the heuristic of its square, whose estimate beats
   * the best one recorded before.
   */
  predicate Pushed(w: World, target: int, goal: Cell, edge: (Cell, Cell) -> real, h: (Cell, Cell) -> real,
                   cur: Path, fin: set<Cell>, best: map<Cell, real>, p: Path)
  {
    Child(w, Topo(target), cur, fin, p)
    && p.edgeCost == edge(cur.dest, p.dest) && p.estimate == h(p.dest, goal)
    && (p.dest in best ==> Priority(p) < best[p.dest])
  }

  /**
   * One expansion: for every unsettled neighbour of `cur`, push a node when
   * the neighbour has no recorded estimate yet or the new estimate beats it.
   * The superseded node stays in the frontier (`SpecOpsAgent`'s `remove` relies
   * on an equality of nodes that is not part of this model).  Recorded
   * estimates only ever go down.
   */
  method Expand(w: World, target: int, goal: Cell, edge: (Cell, Cell) -> real, h: (Cell, Cell) -> real,
                cur: Path, fin: set<Cell>, best: map<Cell, real>)
    returns (pushed: seq<Path>, best': map<Cell, real>)
    ensures forall j :: 0 <= j < |pushed| ==> Pushed(w, target, goal, edge, h, cur, fin, best, pushed[j])
    ensures forall v :: v in best ==> v in best' && best'[v] <= best[v]
    ensures forall v :: v in best' ==> v in best || v in Dests(pushed)
    ensures forall v :: Linked(w, Topo(target), cur.dest, v) ==> v in fin || v in best'
  {
    var neighbors := GetNeighbors(w, target, cur.dest);
    NeighbourSetSpec(w, Topo(target), cur.dest);
    pushed, best' := [], best;
    var todo := neighbors;
    while todo != {}
      invariant todo <= neighbors
      invariant forall j :: 0 <= j < |pushed| ==> Pushed(w, target, goal, edge, h, cur, fin, best, pushed[j])
      invariant forall v :: v in best ==> v in best' && best'[v] <= best[v]
      invariant forall v :: v in best' ==> v in best || v in Dests(pushed)
      invariant forall v :: v in neighbors && v !in todo ==> v in fin || v in best'
      decreases |todo|
    {
      var neighbor :| neighbor in todo;
      todo := todo - {neighbor};
      if neighbor !in fin {
        var edgeWeight := edge(cur.dest, neighbor);
        var heuristicValue := h(neighbor, goal);
        var total := TrueCost(cur) + edgeWeight + heuristicValue;
        // `search` tests "not recorded yet" and "recorded but worse" in two branches with the same effect
        if neighbor !in best' || best'[neighbor] > total {
          var newPath := Extend(neighbor, edgeWeight, heuristicValue, cur);
          DestsPush(pushed, newPath);
          pushed := pushed + [newPath];
          best' := best'[neighbor := total];
        }
      }
    }
  }

  /** The loop invariant of the search. */
  ghost predicate SearchInv(w: World, t: Topology, src: Cell, goal: Cell,
                            heap: seq<Path>, fin: set<Cell>, best: map<Cell, real>)
  {
    FrontierShape(w, t, src, heap, fin)
    && fin <= Universe(w, src)
    && goal !in fin
    && src in best
    && (forall v :: v in best ==> v in fin || v in Dests(heap))
    && (forall u, v :: u in fin && Linked(w, t, u, v) ==> v in fin || v in best)
  }

  /** Polling `heap[i]` and pushing children of it keeps the frontier's shape once its square is settled. */
  lemma StepKeepsShape(w: World, t: Topology, src: Cell, heap: seq<Path>, fin: set<Cell>, i: nat, pushed: seq<Path>)
    requires FrontierShape(w, t, src, heap, fin)
    requires i < |heap|
    requires forall j :: 0 <= j < |pushed| ==> Child(w, t, heap[i], fin + {heap[i].dest}, pushed[j])
    ensures FrontierShape(w, t, src, RemoveAt(heap, i) + pushed, fin + {heap[i].dest})
  {
    var cur := heap[i];
    var fin' := fin + {cur.dest};
    var rest := RemoveAt(heap, i);
    var heap' := rest + pushed;
    assert CellsIn(cur, fin') by {
      CellsStartAtRoot(cur);
    }
    forall j | 0 <= j < |heap'|
      ensures PathFrom(w, t, heap'[j], src) && (heap'[j].Extend? ==> CellsIn(heap'[j].parent, fin'))
    {
      if j < |rest| {
        assert heap'[j] == rest[j];
        if j < i {
          assert rest[j] == heap[j];
        } else {
          assert rest[j] == heap[j + 1];
        }
      } else {
        var p := heap'[j];
        assert p == pushed[j - |rest|];
        ExtendKeepsPathFrom(w, t, cur, src, p.dest, p.edgeCost, p.estimate);
      }
    }
  }

  /** Polling `heap[i]`, settling its square and pushing its children keeps the invariant and shrinks the measure. */
  lemma StepKeepsInv(w: World, t: Topology, src: Cell, goal: Cell, heap: seq<Path>, fin: set<Cell>,
                     best: map<Cell, real>, i: nat, pushed: seq<Path>, best': map<Cell, real>)
    requires SearchInv(w, t, src, goal, heap, fin, best)
    requires i < |heap| && heap[i].dest != goal
    requires forall j :: 0 <= j < |pushed| ==> Child(w, t, heap[i], fin + {heap[i].dest}, pushed[j])
    requires forall v :: v in best ==> v in best'
    requires forall v :: v in best' ==> v in best || v in Dests(pushed)
    requires forall v :: Linked(w, t, heap[i].dest, v) ==> v in fin + {heap[i].dest} || v in best'
    ensures SearchInv(w, t, src, goal, RemoveAt(heap, i) + pushed, fin + {heap[i].dest}, best')
    ensures |Universe(w, src) - (fin + {heap[i].dest})| < |Universe(w, src) - fin|
            || (fin + {heap[i].dest} == fin
                && StaleCount(RemoveAt(heap, i) + pushed, fin) < StaleCount(heap, fin))
  {
    var cur := heap[i];
    var fin' := fin + {cur.dest};
    var rest := RemoveAt(heap, i);
    var heap' := rest + pushed;
    StepKeepsShape(w, t, src, heap, fin, i, pushed);
    PathEndsInUniverse(w, t, cur, src);
    forall v | v in best'
      ensures v in fin' || v in Dests(heap')
    {
      if v !in fin' {
        if v in best {
          DestsRemove(heap, i, v);
          var k :| 0 <= k < |rest| && rest[k].dest == v;
          assert heap'[k] == rest[k];
        } else {
          var k :| 0 <= k < |pushed| && pushed[k].dest == v;
          assert heap'[|rest| + k] == pushed[k];
        }
      }
    }
    MeasureShrinks(w, src, heap, fin, i, pushed);
  }

  /** The termination measure: a fresh square gets settled, or a stale entry leaves the frontier. */
  lemma MeasureShrinks(w: World, src: Cell, heap: seq<Path>, fin: set<Cell>, i: nat, pushed: seq<Path>)
    requires i < |heap| && heap[i].dest in Universe(w, src)
    requires forall j :: 0 <= j < |pushed| ==> pushed[j].dest !in fin + {heap[i].dest}
    ensures |Universe(w, src) - (fin + {heap[i].dest})| < |Universe(w, src) - fin|
            || (fin + {heap[i].dest} == fin
                && StaleCount(RemoveAt(heap, i) + pushed, fin) < StaleCount(heap, fin))
  {
    var cur := heap[i];
    var fin' := fin + {cur.dest};
    StaleCountRemove(heap, i, fin);
    StaleCountZero(pushed, fin');
    StaleCountConcat(RemoveAt(heap, i), pushed, fin');
    if cur.dest !in fin {
      assert Universe(w, src) - fin' == (Universe(w, src) - fin) - {cur.dest};
    } else {
      assert fin' == fin;
    }
  }

  /**
   * `search`: A* from `src` towards `goal`.  It returns the node *before*
   * the goal, so the result is `None` when `src` is the goal itself, and
   * `None` when the frontier runs dry, which happens only when no walk
   * from `src` reaches the goal.
   */
  method Search(w: World, target: int, src: Cell, goal: Cell, edge: (Cell, Cell) -> real, h: (Cell, Cell) -> real)
    returns (r: Option<Path>)
    ensures src == goal ==> r.None?
    ensures r.Some? ==> PathFrom(w, Topo(target), r.value, src) && Linked(w, Topo(target), r.value.dest, goal)
    ensures r.Some? ==> goal !in Cells(r.value)
    ensures r.None? && src != goal ==> forall s :: WalkFrom(w, Topo(target), s, src) ==> goal !in s
  {
    var t := Topo(target);
    var heap := [Root(src, 0.0)];
    var fin: set<Cell> := {};
    var best := map[src := 0.0];
    assert heap[0].dest == src;
    while |heap| > 0
      invariant SearchInv(w, t, src, goal, heap, fin, best)
      decreases |Universe(w, src) - fin|, StaleCount(heap, fin)
    {
      var i := PollMin(heap, Priority);
      var cur := heap[i];
      if cur.dest == goal {
        if cur.Root? {
          return None;
        }
        NonRootLeavesSource(w, t, cur, src);
        ParentIsPath(w, t, cur, src);
        assert CellsIn(cur.parent, fin);
        return Some(cur.parent);
      }
      var fin' := fin + {cur.dest};
      var pushed, best' := Expand(w, target, goal, edge, h, cur, fin', best);
      StepKeepsInv(w, t, src, goal, heap, fin, best, i, pushed, best');
      heap, fin, best := RemoveAt(heap, i) + pushed, fin', best';
    }
    forall s | WalkFrom(w, t, s, src)
      ensures goal !in s
    {
      WalkStaysInside(w, t, s, fin);
    }
    return None;
  }

  /** The parent of a non-root node is itself a non-revisiting walk from `src`, one move short of the node. */
  lemma ParentIsPath(w: World, t: Topology, p: Path, src: Cell)
    requires p.Extend? && PathFrom(w, t, p, src)
    ensures PathFrom(w, t, p.parent, src) && Linked(w, t, p.parent.dest, p.dest)
  {
    var s, s' := Cells(p), Cells(p.parent);
    assert s == s' + [p.dest];
    assert forall i :: 0 <= i < |s'| ==> s'[i] == s[i];
    assert s[|s'| - 1] == p.parent.dest;
  }

  /** A node other than a root never ends on the start square: its walk does not revisit squares. */
  lemma NonRootLeavesSource(w: World, t: Topology, p: Path, src: Cell)
    requires p.Extend? && PathFrom(w, t, p, src)
    ensures p.dest != src
  {
    var s := Cells(p);
    assert s == Cells(p.parent) + [p.dest];
    assert s[0] == src && s[|s| - 1] == p.dest;
  }

  lemma {:induction false} StaleCountZero(b: seq<Path>, fin: set<Cell>)
    requires forall j :: 0 <= j < |b| ==> b[j].dest !in fin
    ensures StaleCount(b, fin) == 0
    decreases |b|
  {
    if |b| > 0 {
      StaleCountZero(b[..|b| - 1], fin);
    }
  }

  /**
   * The stack built by `makePlan`, top first: the squares after the start,
   * in walking order, followed by the entry point when exfiltrating (the
   * search drops the goal square, so it is put back).
   */
  method PlanFromPath(path: Path, exfiltrating: bool, entry: Cell) returns (plan: seq<Cell>)
    ensures plan == Cells(path)[1..] + (if exfiltrating then [entry] else [])
  {
    plan := [];
    if exfiltrating {
      plan := [entry];
    }
    var p := path;
    while p.Extend?
      invariant Cells(p)[1..] + plan == Cells(path)[1..] + (if exfiltrating then [entry] else [])
      decreases p
    {
      CellsStartAtRoot(p);
      assert Cells(p)[1..] == Cells(p.parent)[1..] + [p.dest];
      plan := [p.dest] + plan;
      p := p.parent;
    }
  }

  /**
   * The shape of a plan: from `src`, the waypoints form a walk that never
   * revisits a square; when exfiltrating the last waypoint is `dst` itself,
   * otherwise the last square is one move from `dst`.
   */
  predicate PlanReaches(w: World, t: Topology, src: Cell, plan: seq<Cell>, dst: Cell, exfiltrating: bool)
  {
    WalkFrom(w, t, [src] + plan, src) && Distinct([src] + plan)
    && if exfiltrating then |plan| > 0 && plan[|plan| - 1] == dst
       else Linked(w, t, ([src] + plan)[|plan|], dst)
  }

  /** A search result, turned into a stack, is a plan of that shape; popping it yields the route in walking order. */
  lemma PlanFromPathReaches(w: World, t: Topology, src: Cell, path: Path, dst: Cell, exfiltrating: bool)
    requires PathFrom(w, t, path, src) && Linked(w, t, path.dest, dst) && dst !in Cells(path)
    ensures PlanReaches(w, t, src, Cells(path)[1..] + (if exfiltrating then [dst] else []), dst, exfiltrating)
  {
    var s := Cells(path);
    var plan := s[1..] + (if exfiltrating then [dst] else []);
    if exfiltrating {
      ExtendKeepsPathFrom(w, t, path, src, dst, 0.0, 0.0);
      assert [src] + plan == s + [dst];
    } else {
      assert [src] + plan == s;
    }
  }
}
