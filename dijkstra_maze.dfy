/**
 * The Dijkstra stealth planner.  Moves cost by direction (north is dear,
 * south is cheap, diagonals cost the length of the diagonal), every unit
 * blocks, and the frontier is a priority queue ordered by accumulated cost
 * in which an improved square is pushed again rather than updated.  The
 * first node taken from the queue that ends next to the goal is returned;
 * it is a cheapest walk to any square next to the goal.
 */
module DijkstraMaze {
  import opened Grid
  import opened DistanceMetric
  import opened Paths
  import opened Maze
  import SpecOps

  /** Every unit blocks this planner, as do resources and the map edge. */
  const T: Topology := UnitsBlock

  const NorthCost: real := 10.0
  const SouthCost: real := 1.0
  const EastCost: real := 5.0
  const WestCost: real := 5.0

  /** sqrt(10^2 + 5^2) rounded to single precision, the cost of a north-west or north-east move. */
  const NorthDiagonalCost: real := 2930859.0 / 262144.0

  /** sqrt(1^2 + 5^2) rounded to single precision, the cost of a south-west or south-east move. */
  const SouthDiagonalCost: real := 10693419.0 / 2097152.0

  /**
   * `getEdgeWeight`: the cost of moving from `v1` to `v2`, chosen by the
   * direction of the move; squares that are not one move apart cost nothing.
   */
  function EdgeWeight(v1: Cell, v2: Cell): real
  {
    var d := SpecOps.DirectionToMoveTo(v1, v2);
    if d == Some(NorthWest) then NorthDiagonalCost
    else if d == Some(NorthEast) then NorthDiagonalCost
    else if d == Some(North) then NorthCost
    else if d == Some(SouthWest) then SouthDiagonalCost
    else if d == Some(SouthEast) then SouthDiagonalCost
    else if d == Some(South) then SouthCost
    else if d == Some(West) then WestCost
    else if d == Some(East) then EastCost
    else 0.0
  }

  /**
   * The cost of each move is what its direction says: every move costs at
   * least one, the diagonals are the rounded lengths of the diagonals, and
   * anything that is not a move costs nothing.
   */
  lemma {:induction false} EdgeWeightSpec(v1: Cell, v2: Cell)
    ensures Chebyshev(v1, v2) == 1 ==> EdgeWeight(v1, v2) >= 1.0
    ensures Chebyshev(v1, v2) != 1 ==> EdgeWeight(v1, v2) == 0.0
    ensures v2 == Shift(v1, North) ==> EdgeWeight(v1, v2) == NorthCost
    ensures v2 == Shift(v1, South) ==> EdgeWeight(v1, v2) == SouthCost
    ensures v2 == Shift(v1, East) || v2 == Shift(v1, West) ==> EdgeWeight(v1, v2) == EastCost
    ensures v2 == Shift(v1, NorthEast) || v2 == Shift(v1, NorthWest) ==> EdgeWeight(v1, v2) == NorthDiagonalCost
    ensures v2 == Shift(v1, SouthEast) || v2 == Shift(v1, SouthWest) ==> EdgeWeight(v1, v2) == SouthDiagonalCost
  {
    SpecOps.DirectionToMoveToSpec(v1, v2);
  }

  /** The diagonal costs are the lengths of the diagonals to within single-precision rounding. */
  lemma {:induction false} DiagonalCosts()
    ensures -0.00001 < NorthDiagonalCost * NorthDiagonalCost - (NorthCost * NorthCost + WestCost * WestCost) < 0.00001
    ensures -0.00001 < SouthDiagonalCost * SouthDiagonalCost - (SouthCost * SouthCost + WestCost * WestCost) < 0.00001
    ensures NorthCost < NorthDiagonalCost < NorthCost + WestCost
    ensures WestCost < SouthDiagonalCost < SouthCost + WestCost
  {
  }

  /** The cost of a walk: the sum of its moves' weights. */
  function WalkCost(s: seq<Cell>): real
  {
    if |s| <= 1 then 0.0 else WalkCost(s[..|s| - 1]) + EdgeWeight(s[|s| - 2], s[|s| - 1])
  }

  /** Every edge of the node was recorded with the weight of its move. */
  predicate CostsMatch(p: Path)
  {
    match p
    case Root(_, _) => true
    case Extend(d, e, _, q) => e == EdgeWeight(q.dest, d) && CostsMatch(q)
  }

  /** A node whose edges carry their weights has accumulated exactly the cost of its walk. */
  lemma {:induction false} CostsMatchWalk(p: Path)
    requires CostsMatch(p)
    ensures TrueCost(p) == WalkCost(Cells(p))
  {
    match p
    case Root(_, _) =>
    case Extend(d, _, _, q) =>
      CostsMatchWalk(q);
      var s := Cells(p);
      assert s == Cells(q) + [d];
      assert s[..|s| - 1] == Cells(q);
  }

  /** Walk costs are never negative, and a walk costs at least one per move beyond its prefix. */
  lemma {:induction false} WalkCostGrows(w: World, s: seq<Cell>)
    requires IsWalk(w, T, s)
    ensures WalkCost(s) >= 0.0
    ensures |s| > 1 ==> WalkCost(s) >= WalkCost(s[..|s| - 1]) + 1.0
    decreases |s|
  {
    if |s| > 1 {
      var front := s[..|s| - 1];
      WalkFront(w, T, s);
      WalkCostGrows(w, front);
      EdgeWeightSpec(s[|s| - 2], s[|s| - 1]);
    }
  }

  // ----- the search and its invariant ---------------------------------------

  /** Each node's square is one move from its parent's, and the root is `src`. */
  predicate Chain(w: World, src: Cell, p: Path)
  {
    match p
    case Root(d, _) => d == src
    case Extend(d, _, _, q) => Linked(w, T, q.dest, d) && Chain(w, src, q)
  }

  /** A chained node's squares form a walk from `src`. */
  lemma {:induction false} ChainWalk(w: World, src: Cell, p: Path)
    requires Chain(w, src, p)
    ensures WalkFrom(w, T, Cells(p), src)
  {
    match p
    case Root(_, _) =>
    case Extend(d, _, _, q) =>
      ChainWalk(w, src, q);
      var s, s' := Cells(q), Cells(p);
      assert s' == s + [d];
      forall i | 0 <= i < |s'| - 1
        ensures Linked(w, T, s'[i], s'[i + 1])
      {
        if i < |s| - 1 {
          assert s'[i] == s[i] && s'[i + 1] == s[i + 1];
        }
      }
  }

  /** A queued node: a walk from `src` whose edges carry their weights, costing no less than the best recorded for its square. */
  ghost predicate Entry(w: World, src: Cell, dist: map<Cell, real>, p: Path)
  {
    Chain(w, src, p) && CostsMatch(p) && p.dest in dist && TrueCost(p) >= dist[p.dest]
  }

  /** `s` is a walk from `src` that ends on `v`. */
  ghost predicate WalkTo(w: World, src: Cell, s: seq<Cell>, v: Cell)
  {
    WalkFrom(w, T, s, src) && s[|s| - 1] == v
  }

  /** No walk from `src` to `v` costs less than `d`. */
  ghost predicate LowerBound(w: World, src: Cell, v: Cell, d: real)
  {
    forall s {:trigger WalkTo(w, src, s, v)} :: WalkTo(w, src, s, v) ==> d <= WalkCost(s)
  }

  /** Some queued node reaches `v` at cost `d`. */
  ghost predicate Witnessed(heap: seq<Path>, v: Cell, d: real)
  {
    exists j :: 0 <= j < |heap| && heap[j].dest == v && TrueCost(heap[j]) == d
  }

  /** Popped squares lie on the map (or are `src`), carry their least cost and are not next to the goal. */
  ghost predicate Settled(w: World, src: Cell, goal: Cell, dist: map<Cell, real>, popped: set<Cell>)
  {
    popped <= dist.Keys <= Universe(w, src)
    && src in dist && dist[src] == 0.0
    && (forall v :: v in popped ==> LowerBound(w, src, v, dist[v]) && !IsAdjacent(v, goal))
  }

  /** Every recorded cost of an unpopped square is witnessed by a queued node. */
  ghost predicate AllWitnessed(heap: seq<Path>, dist: map<Cell, real>, popped: set<Cell>)
  {
    forall v :: v in dist && v !in popped ==> Witnessed(heap, v, dist[v])
  }

  /** The neighbours of every popped square outside `open` have been relaxed through it. */
  ghost predicate Relaxed(w: World, dist: map<Cell, real>, popped: set<Cell>, open: set<Cell>)
    requires popped <= dist.Keys
  {
    forall u, v :: u in popped && u !in open && Linked(w, T, u, v) ==>
      v in dist && dist[v] <= dist[u] + EdgeWeight(u, v)
  }

  /**
   * The loop invariant.  `popped` holds the squares whose node has been
   * taken from the queue; `open` the one being expanded.
   */
  ghost predicate DijInv(w: World, src: Cell, goal: Cell, heap: seq<Path>, dist: map<Cell, real>,
                         popped: set<Cell>, open: set<Cell>)
  {
    (forall j :: 0 <= j < |heap| ==> Entry(w, src, dist, heap[j]))
    && Settled(w, src, goal, dist, popped)
    && AllWitnessed(heap, dist, popped)
    && Relaxed(w, dist, popped, open)
  }

  /**
   * The cut argument: a walk from `src` to an unpopped square leaves the
   * popped squares somewhere, and its cost is at least the cost recorded
   * there, which some queued node witnesses.  So a key no larger than every
   * queued key bounds the walk's cost from below.
   */
  lemma {:induction false} CutBound(w: World, src: Cell, goal: Cell, heap: seq<Path>, dist: map<Cell, real>,
                                    popped: set<Cell>, k: real, s: seq<Cell>)
    requires Settled(w, src, goal, dist, popped) && AllWitnessed(heap, dist, popped) && Relaxed(w, dist, popped, {})
    requires forall j :: 0 <= j < |heap| ==> k <= TrueCost(heap[j])
    requires WalkFrom(w, T, s, src) && s[|s| - 1] !in popped
    ensures k <= WalkCost(s)
    decreases |s|
  {
    var x := s[|s| - 1];
    if |s| == 1 {
      var j :| 0 <= j < |heap| && heap[j].dest == src && TrueCost(heap[j]) == dist[src];
    } else {
      var front := s[..|s| - 1];
      var y := s[|s| - 2];
      WalkFront(w, T, s);
      assert front[|front| - 1] == y;
      WalkCostGrows(w, s);
      if y !in popped {
        CutBound(w, src, goal, heap, dist, popped, k, front);
      } else {
        assert WalkTo(w, src, front, y);
        var j :| 0 <= j < |heap| && heap[j].dest == x && TrueCost(heap[j]) == dist[x];
      }
    }
  }

  lemma {:induction false} InitKeeps(w: World, src: Cell, goal: Cell)
    ensures DijInv(w, src, goal, [Root(src, -1.0)], map[src := 0.0], {}, {})
  {
    var h := [Root(src, -1.0)];
    assert Cells(h[0]) == [src];
    assert h[0].dest == src && TrueCost(h[0]) == 0.0;
  }

  /** A square popped for the first time carries the cost of its cheapest walk. */
  lemma {:induction false} PopFresh(w: World, src: Cell, goal: Cell, heap: seq<Path>, dist: map<Cell, real>, popped: set<Cell>, i: nat)
    requires Settled(w, src, goal, dist, popped) && AllWitnessed(heap, dist, popped) && Relaxed(w, dist, popped, {})
    requires forall j :: 0 <= j < |heap| ==> Entry(w, src, dist, heap[j])
    requires i < |heap| && forall j :: 0 <= j < |heap| ==> TrueCost(heap[i]) <= TrueCost(heap[j])
    requires heap[i].dest !in popped
    ensures heap[i].dest in dist && dist[heap[i].dest] == TrueCost(heap[i])
    ensures LowerBound(w, src, heap[i].dest, dist[heap[i].dest])
  {
    var v, k := heap[i].dest, TrueCost(heap[i]);
    assert Entry(w, src, dist, heap[i]);
    var j :| 0 <= j < |heap| && heap[j].dest == v && TrueCost(heap[j]) == dist[v];
    forall s | WalkTo(w, src, s, v)
      ensures k <= WalkCost(s)
    {
      CutBound(w, src, goal, heap, dist, popped, k, s);
    }
  }

  /** Removing the popped node keeps the other nodes, and the witnesses of the other unpopped squares. */
  lemma {:induction false} PopRest(w: World, src: Cell, heap: seq<Path>, dist: map<Cell, real>, popped: set<Cell>, i: nat)
    requires forall j :: 0 <= j < |heap| ==> Entry(w, src, dist, heap[j])
    requires AllWitnessed(heap, dist, popped) && i < |heap|
    ensures forall j :: 0 <= j < |RemoveAt(heap, i)| ==> Entry(w, src, dist, RemoveAt(heap, i)[j])
    ensures AllWitnessed(RemoveAt(heap, i), dist, popped + {heap[i].dest})
  {
    var rest := RemoveAt(heap, i);
    var popped' := popped + {heap[i].dest};
    forall j | 0 <= j < |rest|
      ensures Entry(w, src, dist, rest[j])
    {
      if j < i {
        assert rest[j] == heap[j];
      } else {
        assert rest[j] == heap[j + 1];
      }
    }
    forall x | x in dist && x !in popped'
      ensures Witnessed(rest, x, dist[x])
    {
      var j :| 0 <= j < |heap| && heap[j].dest == x && TrueCost(heap[j]) == dist[x];
      if j < i {
        assert rest[j] == heap[j];
      } else {
        assert rest[j - 1] == heap[j];
      }
    }
  }

  /** The popped square's neighbours are relaxed through it. */
  ghost predicate RelaxedAt(w: World, dist: map<Cell, real>, v: Cell)
    requires v in dist
  {
    forall a :: Linked(w, T, v, a) ==> a in dist && dist[a] <= dist[v] + EdgeWeight(v, a)
  }

  /**
   * Taking a cheapest node that is not next to the goal: its square joins
   * the popped ones.  A square popped for the first time has its least cost
   * (the cut argument); a square popped again was relaxed before.
   */
  lemma {:induction false} PopKeeps(w: World, src: Cell, goal: Cell, heap: seq<Path>, dist: map<Cell, real>, popped: set<Cell>, i: nat)
    requires DijInv(w, src, goal, heap, dist, popped, {})
    requires i < |heap| && forall j :: 0 <= j < |heap| ==> TrueCost(heap[i]) <= TrueCost(heap[j])
    requires !IsAdjacent(heap[i].dest, goal)
    ensures Entry(w, src, dist, heap[i])
    ensures heap[i].dest !in popped ==> dist[heap[i].dest] == TrueCost(heap[i])
    ensures heap[i].dest in popped ==> RelaxedAt(w, dist, heap[i].dest)
    ensures DijInv(w, src, goal, RemoveAt(heap, i), dist, popped + {heap[i].dest}, {heap[i].dest})
  {
    if heap[i].dest !in popped {
      PopFresh(w, src, goal, heap, dist, popped, i);
    }
    PopRest(w, src, heap, dist, popped, i);
  }

  /** Appending the one square `a` to a node's walk extends it by one weighted move. */
  lemma {:induction false} WalkToNeighbour(w: World, src: Cell, cur: Path, a: Cell)
    requires Chain(w, src, cur) && CostsMatch(cur) && Linked(w, T, cur.dest, a)
    ensures WalkFrom(w, T, Cells(cur) + [a], src)
    ensures WalkCost(Cells(cur) + [a]) == TrueCost(cur) + EdgeWeight(cur.dest, a)
    ensures TrueCost(cur) >= 0.0 && EdgeWeight(cur.dest, a) >= 1.0
  {
    var s := Cells(cur);
    var s' := s + [a];
    ChainWalk(w, src, cur);
    assert s'[..|s'| - 1] == s;
    forall i | 0 <= i < |s'| - 1
      ensures Linked(w, T, s'[i], s'[i + 1])
    {
      if i < |s| - 1 {
        assert s'[i] == s[i] && s'[i + 1] == s[i + 1];
      }
    }
    CostsMatchWalk(cur);
    WalkCostGrows(w, s);
    EdgeWeightSpec(cur.dest, a);
  }

  /** A relaxed neighbour is never a popped square (its cost is already least) nor `src`. */
  lemma {:induction false} RelaxFresh(w: World, src: Cell, goal: Cell, dist: map<Cell, real>, popped: set<Cell>, cur: Path, a: Cell)
    requires Settled(w, src, goal, dist, popped)
    requires Chain(w, src, cur) && CostsMatch(cur) && Linked(w, T, cur.dest, a)
    requires a !in dist || TrueCost(cur) + EdgeWeight(cur.dest, a) < dist[a]
    ensures a !in popped && a != src && a in Universe(w, src)
    ensures TrueCost(cur) + EdgeWeight(cur.dest, a) > 0.0
  {
    WalkToNeighbour(w, src, cur, a);
    var s := Cells(cur) + [a];
    assert s[|s| - 1] == a;
    assert WalkTo(w, src, s, a);
    assert a in popped ==> LowerBound(w, src, a, dist[a]);
    BoardCellsAreInBounds(w, a);
  }

  /** Lowering the recorded cost of a square keeps every queued node a queued node. */
  lemma {:induction false} EntryLowered(w: World, src: Cell, dist: map<Cell, real>, q: Path, a: Cell, d: real)
    requires Entry(w, src, dist, q)
    requires a !in dist || d < dist[a]
    ensures Entry(w, src, dist[a := d], q)
  {
  }

  /** The node for a relaxed neighbour is a queued node for the updated costs. */
  lemma {:induction false} NewEntry(w: World, src: Cell, dist: map<Cell, real>, cur: Path, a: Cell, p: Path)
    requires Chain(w, src, cur) && CostsMatch(cur) && Linked(w, T, cur.dest, a)
    requires p == Extend(a, EdgeWeight(cur.dest, a), TrueCost(cur) + EdgeWeight(cur.dest, a), cur)
    ensures Entry(w, src, dist[a := TrueCost(p)], p)
  {
  }

  /** Queueing a node for the updated costs keeps every queued node a queued node. */
  lemma {:induction false} RelaxEntries(w: World, src: Cell, heap: seq<Path>, dist: map<Cell, real>, p: Path, a: Cell, d: real)
    requires forall j :: 0 <= j < |heap| ==> Entry(w, src, dist, heap[j])
    requires p.dest == a && Entry(w, src, dist[a := d], p)
    requires a !in dist || d < dist[a]
    ensures forall j :: 0 <= j < |heap + [p]| ==> Entry(w, src, dist[a := d], (heap + [p])[j])
  {
    var heap' := heap + [p];
    forall j | 0 <= j < |heap'|
      ensures Entry(w, src, dist[a := d], heap'[j])
    {
      if j < |heap| {
        assert heap'[j] == heap[j];
        EntryLowered(w, src, dist, heap[j], a, d);
      }
    }
  }

  /** The updated cost of the relaxed square is witnessed by the new node; the others keep theirs. */
  lemma {:induction false} RelaxWitnessed(heap: seq<Path>, dist: map<Cell, real>, popped: set<Cell>, p: Path, a: Cell, d: real)
    requires AllWitnessed(heap, dist, popped)
    requires p.dest == a && TrueCost(p) == d
    ensures AllWitnessed(heap + [p], dist[a := d], popped)
  {
    var heap', dist' := heap + [p], dist[a := d];
    forall x | x in dist' && x !in popped
      ensures Witnessed(heap', x, dist'[x])
    {
      if x == a {
        assert heap'[|heap|] == p;
      } else {
        var j :| 0 <= j < |heap| && heap[j].dest == x && TrueCost(heap[j]) == dist[x];
        assert heap'[j] == heap[j];
      }
    }
  }

  /** Lowering the cost of an unpopped square keeps every popped square settled and relaxed. */
  lemma {:induction false} RelaxSettled(w: World, src: Cell, goal: Cell, dist: map<Cell, real>, popped: set<Cell>, open: set<Cell>,
                     a: Cell, d: real)
    requires Settled(w, src, goal, dist, popped) && Relaxed(w, dist, popped, open)
    requires a !in popped && a != src && a in Universe(w, src)
    requires a !in dist || d < dist[a]
    ensures Settled(w, src, goal, dist[a := d], popped) && Relaxed(w, dist[a := d], popped, open)
  {
  }

  /** Recording a cheaper cost for a neighbour of the expanded node and queueing the new node `p`. */
  lemma {:induction false} RelaxKeeps(w: World, src: Cell, goal: Cell, heap: seq<Path>, dist: map<Cell, real>, popped: set<Cell>,
                   cur: Path, a: Cell, p: Path)
    requires DijInv(w, src, goal, heap, dist, popped, {cur.dest})
    requires Chain(w, src, cur) && CostsMatch(cur) && Linked(w, T, cur.dest, a)
    requires p == Extend(a, EdgeWeight(cur.dest, a), TrueCost(cur) + EdgeWeight(cur.dest, a), cur)
    requires a !in dist || TrueCost(p) < dist[a]
    ensures a !in popped && a != cur.dest
    ensures DijInv(w, src, goal, heap + [p], dist[a := TrueCost(p)], popped, {cur.dest})
    ensures forall b :: b in dist ==> b in dist[a := TrueCost(p)] && dist[a := TrueCost(p)][b] <= dist[b]
  {
    var d := TrueCost(p);
    RelaxFresh(w, src, goal, dist, popped, cur, a);
    NewEntry(w, src, dist, cur, a, p);
    RelaxEntries(w, src, heap, dist, p, a, d);
    RelaxWitnessed(heap, dist, popped, p, a, d);
    RelaxSettled(w, src, goal, dist, popped, {cur.dest}, a, d);
  }

  /** A node popped again for an already relaxed square improves no neighbour. */
  lemma {:induction false} StaleGainsNothing(w: World, dist: map<Cell, real>, cur: Path, a: Cell, stale: bool)
    requires cur.dest in dist && TrueCost(cur) >= dist[cur.dest] && Linked(w, T, cur.dest, a)
    requires stale ==> RelaxedAt(w, dist, cur.dest)
    ensures stale ==> a in dist && dist[a] <= TrueCost(cur) + EdgeWeight(cur.dest, a)
  {
  }

  /** Once every neighbour of the expanded square is relaxed, it is no longer open. */
  lemma {:induction false} CloseKeeps(w: World, src: Cell, goal: Cell, heap: seq<Path>, dist: map<Cell, real>, popped: set<Cell>, v: Cell)
    requires DijInv(w, src, goal, heap, dist, popped, {v}) && v in popped
    requires RelaxedAt(w, dist, v)
    ensures DijInv(w, src, goal, heap, dist, popped, {})
  {
  }

  /** With the queue empty every discovered square is popped, so no walk from `src` leaves them. */
  lemma {:induction false} Exhausted(w: World, src: Cell, goal: Cell, dist: map<Cell, real>, popped: set<Cell>, s: seq<Cell>)
    requires DijInv(w, src, goal, [], dist, popped, {})
    requires WalkFrom(w, T, s, src)
    ensures forall i :: 0 <= i < |s| ==> !IsAdjacent(s[i], goal)
  {
    assert dist.Keys <= popped;
    WalkStaysInside(w, T, s, popped);
  }

  /**
   * One step of the inner loop: the neighbour `a` of the popped node gets
   * the node's cost plus the move's weight when that is cheaper than what is
   * recorded (or nothing is), and the new node is queued.  Recorded costs
   * only fall, and a stale node changes nothing.
   */
  method Relax(w: World, src: Cell, goal: Cell, heap: seq<Path>, dist: map<Cell, real>, ghost popped: set<Cell>,
               cur: Path, a: Cell, ghost stale: bool)
    returns (heap': seq<Path>, dist': map<Cell, real>)
    requires DijInv(w, src, goal, heap, dist, popped, {cur.dest}) && cur.dest in popped
    requires Chain(w, src, cur) && CostsMatch(cur) && TrueCost(cur) >= dist[cur.dest]
    requires Linked(w, T, cur.dest, a)
    requires stale ==> RelaxedAt(w, dist, cur.dest)
    ensures DijInv(w, src, goal, heap', dist', popped, {cur.dest})
    ensures a in dist' && dist'[a] <= TrueCost(cur) + EdgeWeight(cur.dest, a)
    ensures forall b :: b in dist ==> b in dist' && dist'[b] <= dist[b]
    ensures dist'[cur.dest] == dist[cur.dest]
    ensures stale ==> heap' == heap && dist' == dist
  {
    var edgeCost := EdgeWeight(cur.dest, a);
    var newDistance := TrueCost(cur) + edgeCost;
    StaleGainsNothing(w, dist, cur, a, stale);
    heap', dist' := heap, dist;
    if a !in dist || newDistance < dist[a] {
      var newPath := Extend(a, edgeCost, newDistance, cur);
      RelaxKeeps(w, src, goal, heap, dist, popped, cur, a, newPath);
      dist' := dist[a := newDistance];
      heap' := heap + [newPath];
    }
  }

  /**
   * The inner loop of `search`: relax every neighbour of the popped node
   * `cur`.  A node taken a second time for its square (`stale`) improves
   * nothing.
   */
  method Expand(w: World, src: Cell, goal: Cell, heap: seq<Path>, dist: map<Cell, real>, ghost popped: set<Cell>,
                cur: Path, ghost stale: bool)
    returns (heap': seq<Path>, dist': map<Cell, real>)
    requires DijInv(w, src, goal, heap, dist, popped, {cur.dest}) && cur.dest in popped
    requires Entry(w, src, dist, cur)
    requires !stale ==> dist[cur.dest] == TrueCost(cur)
    requires stale ==> RelaxedAt(w, dist, cur.dest)
    ensures DijInv(w, src, goal, heap', dist', popped, {})
    ensures stale ==> heap' == heap && dist' == dist
  {
    var v := cur.dest;
    var neighbors := GetAdjacentVertices(w, T, v);
    NeighbourSetSpec(w, T, v);
    heap', dist' := heap, dist;
    var todo := neighbors;
    while todo != {}
      invariant todo <= neighbors
      invariant DijInv(w, src, goal, heap', dist', popped, {v})
      invariant v in dist' && dist'[v] == dist[v]
      invariant forall b :: b in neighbors && b !in todo ==> b in dist' && dist'[b] <= TrueCost(cur) + EdgeWeight(v, b)
      invariant stale ==> heap' == heap && dist' == dist
      decreases |todo|
    {
      var adjacent :| adjacent in todo;
      todo := todo - {adjacent};
      heap', dist' := Relax(w, src, goal, heap', dist', popped, cur, adjacent, stale);
    }
    CloseKeeps(w, src, goal, heap', dist', popped, v);
  }

  /** A cheapest queued node that ends next to the goal is a cheapest walk there. */
  lemma {:induction false} FoundCheapest(w: World, src: Cell, goal: Cell, heap: seq<Path>, dist: map<Cell, real>, popped: set<Cell>, i: nat)
    requires DijInv(w, src, goal, heap, dist, popped, {})
    requires i < |heap| && forall j :: 0 <= j < |heap| ==> TrueCost(heap[i]) <= TrueCost(heap[j])
    ensures WalkFrom(w, T, Cells(heap[i]), src) && CostsMatch(heap[i])
    ensures forall s :: WalkFrom(w, T, s, src) && IsAdjacent(s[|s| - 1], goal) ==> TrueCost(heap[i]) <= WalkCost(s)
  {
    assert Entry(w, src, dist, heap[i]);
    ChainWalk(w, src, heap[i]);
    forall s | WalkFrom(w, T, s, src) && IsAdjacent(s[|s| - 1], goal)
      ensures TrueCost(heap[i]) <= WalkCost(s)
    {
      CutBound(w, src, goal, heap, dist, popped, TrueCost(heap[i]), s);
    }
  }

  /**
   * One round of the outer loop: take a cheapest node; return it when it
   * ends next to the goal, otherwise expand it.
   */
  method Round(w: World, src: Cell, goal: Cell, heap: seq<Path>, dist: map<Cell, real>, ghost popped: set<Cell>)
    returns (found: Option<Path>, heap': seq<Path>, dist': map<Cell, real>, ghost popped': set<Cell>)
    requires DijInv(w, src, goal, heap, dist, popped, {}) && |heap| > 0
    ensures found.Some? ==>
              WalkFrom(w, T, Cells(found.value), src) && CostsMatch(found.value) && IsAdjacent(found.value.dest, goal)
    ensures found.Some? ==>
              forall s :: WalkFrom(w, T, s, src) && IsAdjacent(s[|s| - 1], goal) ==> TrueCost(found.value) <= WalkCost(s)
    ensures found.None? ==> DijInv(w, src, goal, heap', dist', popped', {})
    ensures found.None? ==>
              |Universe(w, src) - popped'| < |Universe(w, src) - popped|
              || (popped' == popped && |heap'| < |heap|)
  {
    var i := PollMin(heap, TrueCost);
    var cur := heap[i];
    if IsAdjacent(cur.dest, goal) {
      FoundCheapest(w, src, goal, heap, dist, popped, i);
      return Some(cur), heap, dist, popped;
    }
    PopKeeps(w, src, goal, heap, dist, popped, i);
    ghost var stale := cur.dest in popped;
    popped' := popped + {cur.dest};
    heap', dist' := Expand(w, src, goal, RemoveAt(heap, i), dist, popped', cur, stale);
    found := None;
    if !stale {
      FewerUndiscovered(Universe(w, src), popped, popped');
    }
  }

  /**
   * `search`: Dijkstra's search from `src`.  When `src` is the goal the
   * result is the one-square route.  Otherwise a result is a walk from `src`
   * whose recorded edge costs are the move weights, ending next to the goal,
   * and no walk from `src` to a square next to the goal is cheaper; no
   * result means no walk from `src` comes next to the goal.
   */
  method Search(w: World, src: Cell, goal: Cell) returns (r: Option<Path>)
    ensures src == goal ==> r == Some(Root(src, 0.0))
    ensures src != goal && r.Some? ==>
              WalkFrom(w, T, Cells(r.value), src) && CostsMatch(r.value) && IsAdjacent(r.value.dest, goal)
              && TrueCost(r.value) == WalkCost(Cells(r.value))
    ensures src != goal && r.Some? ==>
              forall s :: WalkFrom(w, T, s, src) && IsAdjacent(s[|s| - 1], goal) ==> TrueCost(r.value) <= WalkCost(s)
    ensures src != goal && r.None? ==>
              forall s :: WalkFrom(w, T, s, src) ==> forall i :: 0 <= i < |s| ==> !IsAdjacent(s[i], goal)
  {
    if src == goal {
      return Some(Root(src, 0.0));
    }
    var dist := map[src := 0.0];
    var heap := [Root(src, -1.0)];
    ghost var popped: set<Cell> := {};
    InitKeeps(w, src, goal);
    while |heap| > 0
      invariant DijInv(w, src, goal, heap, dist, popped, {})
      decreases |Universe(w, src) - popped|, |heap|
    {
      var found;
      found, heap, dist, popped := Round(w, src, goal, heap, dist, popped);
      if found.Some? {
        CostsMatchWalk(found.value);
        return found;
      }
    }
    forall s | WalkFrom(w, T, s, src)
      ensures forall i :: 0 <= i < |s| ==> !IsAdjacent(s[i], goal)
    {
      Exhausted(w, src, goal, dist, popped, s);
    }
    return None;
  }
}
