/**
 * What the four planners share: the parent-chained search node `Path`, the
 * eight-neighbour move relation (with the three passability rules the
 * planners use), walks over that relation, and the bookkeeping of a frontier
 * held as a sequence of nodes.
 */
module Paths {
  import opened Grid
  import opened DistanceMetric

  /**
   * A search node: its destination square, the cost of its last edge, the
   * estimate its creator recorded, and the node it extends.  A root has no
   * parent and costs nothing.
   */
  datatype Path = Root(dest: Cell, estimate: real)
                | Extend(dest: Cell, edgeCost: real, estimate: real, parent: Path)

  /** Accumulated edge cost from the root: the parent's cost plus the last edge. */
  function TrueCost(p: Path): real
  {
    match p
    case Root(_, _) => 0.0
    case Extend(_, e, _, q) => TrueCost(q) + e
  }

  /** The squares of a node, root first. */
  function Cells(p: Path): (s: seq<Cell>)
    ensures |s| >= 1 && s[|s| - 1] == p.dest
  {
    match p
    case Root(d, _) => [d]
    case Extend(d, _, _, q) => Cells(q) + [d]
  }

  /** Number of edges between the root and the node. */
  function Steps(p: Path): nat
  {
    |Cells(p)| - 1
  }

  /** Which occupied squares a planner refuses to enter. */
  datatype Topology =
    | UnitsBlockExceptTarget(target: int)   // the infiltration planner: any unit but the target blocks
    | ResourcesBlock                        // breadth- and depth-first maze planners: units never block
    | UnitsBlock                            // the Dijkstra maze planner: every unit blocks

  /** In bounds, not a resource, and not held by a unit the topology refuses. */
  predicate Passable(w: World, t: Topology, c: Cell)
  {
    InBounds(w, c) && !IsResourceAt(w, c) &&
    match t
    case UnitsBlockExceptTarget(target) => !IsUnitAt(w, c) || w.occupant[c] == target
    case ResourcesBlock => true
    case UnitsBlock => !IsUnitAt(w, c)
  }

  /** One king's move onto a passable square. */
  predicate Linked(w: World, t: Topology, a: Cell, b: Cell)
  {
    Chebyshev(a, b) == 1 && Passable(w, t, b)
  }

  predicate IsWalk(w: World, t: Topology, s: seq<Cell>)
  {
    forall i :: 0 <= i < |s| - 1 ==> Linked(w, t, s[i], s[i + 1])
  }

  predicate Distinct(s: seq<Cell>)
  {
    forall i, j :: 0 <= i < j < |s| ==> s[i] != s[j]
  }

  predicate WalkFrom(w: World, t: Topology, s: seq<Cell>, src: Cell)
  {
    |s| > 0 && s[0] == src && IsWalk(w, t, s)
  }

  /** A node whose squares form a walk from `src` that never revisits a square. */
  predicate PathFrom(w: World, t: Topology, p: Path, src: Cell)
  {
    WalkFrom(w, t, Cells(p), src) && Distinct(Cells(p))
  }

  /** Every square of `p` lies in `seen` (settled, or discovered). */
  predicate CellsIn(p: Path, seen: set<Cell>)
  {
    forall j :: 0 <= j < |Cells(p)| ==> Cells(p)[j] in seen
  }

  /** The eight squares around `v`. */
  function Candidates(v: Cell): set<Cell>
  {
    {Cell(v.x - 1, v.y - 1), Cell(v.x - 1, v.y), Cell(v.x - 1, v.y + 1),
     Cell(v.x, v.y - 1), Cell(v.x, v.y + 1),
     Cell(v.x + 1, v.y - 1), Cell(v.x + 1, v.y), Cell(v.x + 1, v.y + 1)}
  }

  /** The passable squares around `v`. */
  function NeighbourSet(w: World, t: Topology, v: Cell): set<Cell>
  {
    set c | c in Candidates(v) && Passable(w, t, c)
  }

  /** Squares of a map, plus the start square (which may lie off the map). */
  function Universe(w: World, src: Cell): set<Cell>
  {
    BoardCells(w) + {src}
  }

  /** The destinations present in a frontier. */
  function Dests(heap: seq<Path>): set<Cell>
  {
    set i | 0 <= i < |heap| :: heap[i].dest
  }

  /** How many frontier entries lead to an already settled square. */
  function StaleCount(heap: seq<Path>, fin: set<Cell>): nat
  {
    if |heap| == 0 then 0
    else StaleCount(heap[..|heap| - 1], fin) + (if heap[|heap| - 1].dest in fin then 1 else 0)
  }

  function RemoveAt(heap: seq<Path>, i: nat): (r: seq<Path>)
    requires i < |heap|
    ensures |r| == |heap| - 1
    ensures forall j :: 0 <= j < i ==> r[j] == heap[j]
    ensures forall j :: i <= j < |r| ==> r[j] == heap[j + 1]
  {
    heap[..i] + heap[i + 1..]
  }

  // ----- lemmas ----------------------------------------------------------

  /** The eight candidates are exactly the squares at Chebyshev distance 1. */
  lemma CandidatesSpec(v: Cell, c: Cell)
    ensures c in Candidates(v) <==> Chebyshev(v, c) == 1
  {
    if Chebyshev(v, c) == 1 {
      assert -1 <= c.x - v.x <= 1 && -1 <= c.y - v.y <= 1;
      assert c == Cell(v.x + (c.x - v.x), v.y + (c.y - v.y));
    }
  }

  /** The neighbour set is the move relation, holds at most eight squares, and never holds `v` itself. */
  lemma NeighbourSetSpec(w: World, t: Topology, v: Cell)
    ensures forall c :: c in NeighbourSet(w, t, v) <==> Linked(w, t, v, c)
    ensures |NeighbourSet(w, t, v)| <= 8
    ensures v !in NeighbourSet(w, t, v)
  {
    forall c
      ensures c in NeighbourSet(w, t, v) <==> Linked(w, t, v, c)
    {
      CandidatesSpec(v, c);
    }
    CandidatesCount(v);
    assert NeighbourSet(w, t, v) <= Candidates(v);
    SubsetCard(NeighbourSet(w, t, v), Candidates(v));
  }

  lemma CandidatesCount(v: Cell)
    ensures |Candidates(v)| <= 8
  {
    var a := {Cell(v.x - 1, v.y - 1), Cell(v.x - 1, v.y), Cell(v.x - 1, v.y + 1), Cell(v.x, v.y - 1)};
    var b := {Cell(v.x, v.y + 1), Cell(v.x + 1, v.y - 1), Cell(v.x + 1, v.y), Cell(v.x + 1, v.y + 1)};
    assert Candidates(v) == a + b;
    assert |a| <= 4 && |b| <= 4;
  }

  lemma SubsetCard<T>(a: set<T>, b: set<T>)
    requires a <= b
    ensures |a| <= |b|
  {
    assert b == a + (b - a);
  }

  /** A walk that starts inside a set closed under the move relation never leaves it. */
  lemma {:induction false} WalkStaysInside(w: World, t: Topology, s: seq<Cell>, inside: set<Cell>)
    requires IsWalk(w, t, s) && |s| > 0 && s[0] in inside
    requires forall a, b :: a in inside && Linked(w, t, a, b) ==> b in inside
    ensures forall i :: 0 <= i < |s| ==> s[i] in inside
    decreases |s|
  {
    if |s| > 1 {
      var front := s[..|s| - 1];
      WalkFront(w, t, s);
      WalkStaysInside(w, t, front, inside);
      assert s[|s| - 2] == front[|front| - 1];
    }
  }

  /** Dropping the last square of a walk leaves a walk, which the last move extends. */
  lemma WalkFront(w: World, t: Topology, s: seq<Cell>)
    requires IsWalk(w, t, s) && |s| > 1
    ensures IsWalk(w, t, s[..|s| - 1]) && Linked(w, t, s[|s| - 2], s[|s| - 1])
  {
    var front := s[..|s| - 1];
    forall i | 0 <= i < |front| - 1
      ensures Linked(w, t, front[i], front[i + 1])
    {
      assert front[i] == s[i] && front[i + 1] == s[i + 1];
    }
  }

  /** The root of a node is its first square. */
  lemma {:induction false} CellsStartAtRoot(p: Path)
    ensures p.Root? ==> Cells(p) == [p.dest]
    ensures p.Extend? ==> Cells(p) == Cells(p.parent) + [p.dest] && Cells(p)[0] == Cells(p.parent)[0]
  {
  }

  /** A node moving onto a linked, unvisited square keeps describing a non-revisiting walk from `src`. */
  lemma ExtendKeepsPathFrom(w: World, t: Topology, p: Path, src: Cell, d: Cell, e: real, h: real)
    requires PathFrom(w, t, p, src)
    requires Linked(w, t, p.dest, d)
    requires d !in Cells(p)
    ensures PathFrom(w, t, Extend(d, e, h, p), src)
    ensures Cells(Extend(d, e, h, p)) == Cells(p) + [d]
  {
    var s, s' := Cells(p), Cells(Extend(d, e, h, p));
    assert s' == s + [d];
    forall i | 0 <= i < |s'| - 1
      ensures Linked(w, t, s'[i], s'[i + 1])
    {
      if i < |s| - 1 {
        assert s'[i] == s[i] && s'[i + 1] == s[i + 1];
      } else {
        assert s'[i] == p.dest && s'[i + 1] == d;
      }
    }
  }

  /** Every node that is a walk from `src` ends inside the universe of the search. */
  lemma PathEndsInUniverse(w: World, t: Topology, p: Path, src: Cell)
    requires WalkFrom(w, t, Cells(p), src)
    ensures p.dest in Universe(w, src)
  {
    var s := Cells(p);
    if |s| == 1 {
      assert p.dest == s[0] == src;
    } else {
      assert Linked(w, t, s[|s| - 2], s[|s| - 1]);
      BoardCellsAreInBounds(w, p.dest);
    }
  }

  lemma {:induction false} StaleCountConcat(a: seq<Path>, b: seq<Path>, fin: set<Cell>)
    ensures StaleCount(a + b, fin) == StaleCount(a, fin) + StaleCount(b, fin)
    decreases |b|
  {
    if |b| == 0 {
      assert a + b == a;
    } else {
      var b' := b[..|b| - 1];
      assert (a + b)[..|a + b| - 1] == a + b';
      StaleCountConcat(a, b', fin);
    }
  }

  /** Pushing an entry towards an unsettled square leaves the stale count alone. */
  lemma StaleCountPushFresh(heap: seq<Path>, p: Path, fin: set<Cell>)
    requires p.dest !in fin
    ensures StaleCount(heap + [p], fin) == StaleCount(heap, fin)
  {
    assert (heap + [p])[..|heap|] == heap;
  }

  /** Polling an entry removes exactly its own contribution to the stale count. */
  lemma StaleCountRemove(heap: seq<Path>, i: nat, fin: set<Cell>)
    requires i < |heap|
    ensures StaleCount(heap, fin) == StaleCount(RemoveAt(heap, i), fin) + (if heap[i].dest in fin then 1 else 0)
  {
    assert heap == heap[..i] + [heap[i]] + heap[i + 1..];
    StaleCountConcat(heap[..i] + [heap[i]], heap[i + 1..], fin);
    StaleCountConcat(heap[..i], [heap[i]], fin);
    StaleCountConcat(heap[..i], heap[i + 1..], fin);
    assert [heap[i]][..0] == [];
  }

  /** Removing one entry keeps every other entry's destination in the frontier. */
  lemma DestsRemove(heap: seq<Path>, i: nat, v: Cell)
    requires i < |heap|
    requires v in Dests(heap) && v != heap[i].dest
    ensures v in Dests(RemoveAt(heap, i))
  {
    var j :| 0 <= j < |heap| && heap[j].dest == v;
    if j < i {
      assert RemoveAt(heap, i)[j] == heap[j];
    } else {
      assert RemoveAt(heap, i)[j - 1] == heap[j];
    }
  }

  lemma DestsPush(heap: seq<Path>, p: Path)
    ensures Dests(heap + [p]) == Dests(heap) + {p.dest}
  {
    var h' := heap + [p];
    forall v | v in Dests(heap)
      ensures v in Dests(h')
    {
      var j :| 0 <= j < |heap| && heap[j].dest == v;
      assert h'[j] == heap[j];
    }
    assert h'[|heap|] == p;
  }

  /**
   * `PriorityQueue.poll`: the index of an entry whose key is minimal.  Ties
   * may be broken either way by `java.util.PriorityQueue`; the contract leaves them open.
   */
  method PollMin(heap: seq<Path>, key: Path -> real) returns (i: nat)
    requires |heap| > 0
    ensures i < |heap|
    ensures forall j :: 0 <= j < |heap| ==> key(heap[i]) <= key(heap[j])
  {
    i := 0;
    var k := 1;
    while k < |heap|
      invariant 1 <= k <= |heap| && i < |heap|
      invariant forall j :: 0 <= j < k ==> key(heap[i]) <= key(heap[j])
    {
      if key(heap[k]) < key(heap[i]) {
        i := k;
      }
      k := k + 1;
    }
  }
}
