/**
 * The breadth-first stealth planner.  It searches outwards from the start
 * square and stops at the first square it discovers that is one king's move
 * from the goal.  The result is a shortest route of that kind: no walk
 * reaches a square next to the goal in fewer moves.
 */
module BfsMaze {
  import opened Grid
  import opened DistanceMetric
  import opened Paths
  import opened Maze

  /** Units never block this planner; resources and the map edge do. */
  const T: Topology := ResourcesBlock

  /** A queued node: a non-revisiting walk of unit-cost moves through discovered squares, whose depth `dep` records. */
  ghost predicate Node(w: World, src: Cell, visited: set<Cell>, dep: map<Cell, nat>, p: Path)
  {
    PathFrom(w, T, p, src) && UnitEdges(p) && CellsIn(p, visited)
    && p.dest in dep && dep[p.dest] == Steps(p)
  }

  /**
   * The queue holds the rest of the current level followed by the next one:
   * its first `split` nodes are `level` moves deep, the others one more.
   */
  ghost predicate QueueShape(w: World, src: Cell, queue: seq<Path>, visited: set<Cell>,
                             dep: map<Cell, nat>, level: nat, split: nat)
  {
    split <= |queue|
    && forall j :: 0 <= j < |queue| ==>
         Node(w, src, visited, dep, queue[j]) && Steps(queue[j]) == if j < split then level else level + 1
  }

  /** The discovered squares: a depth for each, none deeper than the next level, none but `src` next to the goal. */
  ghost predicate Discovered(w: World, src: Cell, goal: Cell, visited: set<Cell>, dep: map<Cell, nat>, level: nat)
  {
    visited == dep.Keys && visited <= Universe(w, src)
    && src in visited && dep[src] == 0
    && (forall c :: c in visited ==> dep[c] <= level + 1)
    && (forall c :: c in visited && c != src ==> !IsAdjacent(c, goal))
  }

  /** Every discovered square outside `pending` has all its neighbours discovered, at most one move deeper. */
  ghost predicate Closed(w: World, visited: set<Cell>, dep: map<Cell, nat>, pending: set<Cell>)
    requires visited == dep.Keys
  {
    forall u, v :: u in visited && u !in pending && Linked(w, T, u, v) ==> v in visited && dep[v] <= dep[u] + 1
  }

  /**
   * The loop invariant.  `level` is the depth of the node expanded last;
   * `open` holds the square being expanded, if any.
   */
  ghost predicate BfsInv(w: World, src: Cell, goal: Cell, queue: seq<Path>, visited: set<Cell>,
                         dep: map<Cell, nat>, level: nat, split: nat, open: set<Cell>)
  {
    QueueShape(w, src, queue, visited, dep, level, split)
    && Discovered(w, src, goal, visited, dep, level)
    && Closed(w, visited, dep, Dests(queue) + open)
  }

  /** The level and split after taking the head of the queue. */
  function PopSplit(queue: seq<Path>, split: nat): nat
    requires |queue| > 0
  {
    if split > 0 then split - 1 else |queue| - 1
  }

  /** Taking the head of the queue: its level becomes current and its square is being expanded. */
  lemma {:induction false} PopKeeps(w: World, src: Cell, goal: Cell, queue: seq<Path>, visited: set<Cell>,
                 dep: map<Cell, nat>, level: nat, split: nat)
    requires BfsInv(w, src, goal, queue, visited, dep, level, split, {})
    requires |queue| > 0
    ensures Node(w, src, visited, dep, queue[0])
    ensures BfsInv(w, src, goal, queue[1..], visited, dep, Steps(queue[0]), PopSplit(queue, split), {queue[0].dest})
  {
    var c := queue[0].dest;
    var q := queue[1..];
    forall u | u in Dests(queue) && u != c
      ensures u in Dests(q)
    {
      var j :| 0 <= j < |queue| && queue[j].dest == u;
      assert q[j - 1] == queue[j];
    }
    assert QueueShape(w, src, q, visited, dep, Steps(queue[0]), PopSplit(queue, split)) by {
      forall j | 0 <= j < |q|
        ensures Node(w, src, visited, dep, q[j])
        ensures Steps(q[j]) == if j < PopSplit(queue, split) then Steps(queue[0]) else Steps(queue[0]) + 1
      {
        assert q[j] == queue[j + 1];
      }
    }
  }

  lemma {:induction false} DiscoverShape(w: World, src: Cell, queue: seq<Path>, visited: set<Cell>,
                      dep: map<Cell, nat>, level: nat, split: nat, cur: Path, a: Cell)
    requires QueueShape(w, src, queue, visited, dep, level, split) && visited == dep.Keys
    requires Node(w, src, visited, dep, cur) && Steps(cur) == level
    requires Linked(w, T, cur.dest, a) && a !in visited
    ensures QueueShape(w, src, queue + [Extend(a, 1.0, 0.0, cur)], visited + {a}, dep[a := level + 1], level, split)
  {
    var p := Extend(a, 1.0, 0.0, cur);
    var q := queue + [p];
    var visited', dep' := visited + {a}, dep[a := level + 1];
    ExtendKeepsPathFrom(w, T, cur, src, a, 1.0, 0.0);
    forall j | 0 <= j < |q|
      ensures Node(w, src, visited', dep', q[j]) && Steps(q[j]) == if j < split then level else level + 1
    {
      if j < |queue| {
        assert q[j] == queue[j];
        assert q[j].dest in visited;
      } else {
        assert q[j] == p;
      }
    }
  }

  lemma {:induction false} DiscoverFresh(w: World, src: Cell, goal: Cell, visited: set<Cell>, dep: map<Cell, nat>, level: nat, a: Cell)
    requires Discovered(w, src, goal, visited, dep, level)
    requires InBounds(w, a) && a !in visited && !IsAdjacent(a, goal)
    ensures Discovered(w, src, goal, visited + {a}, dep[a := level + 1], level)
  {
    BoardCellsAreInBounds(w, a);
  }

  lemma {:induction false} DiscoverClosed(w: World, visited: set<Cell>, dep: map<Cell, nat>, pending: set<Cell>, pending': set<Cell>,
                       a: Cell, d: nat)
    requires visited == dep.Keys && Closed(w, visited, dep, pending)
    requires a !in visited && pending <= pending' && a in pending'
    ensures Closed(w, visited + {a}, dep[a := d], pending')
  {
  }

  /** Discovering a fresh neighbour of the expanded node and queueing it. */
  lemma {:induction false} DiscoverKeeps(w: World, src: Cell, goal: Cell, queue: seq<Path>, visited: set<Cell>,
                      dep: map<Cell, nat>, level: nat, split: nat, cur: Path, a: Cell)
    requires BfsInv(w, src, goal, queue, visited, dep, level, split, {cur.dest})
    requires Node(w, src, visited, dep, cur) && Steps(cur) == level
    requires Linked(w, T, cur.dest, a) && a !in visited && !IsAdjacent(a, goal)
    ensures BfsInv(w, src, goal, queue + [Extend(a, 1.0, 0.0, cur)], visited + {a},
                   dep[a := level + 1], level, split, {cur.dest})
  {
    var p := Extend(a, 1.0, 0.0, cur);
    DiscoverShape(w, src, queue, visited, dep, level, split, cur, a);
    DiscoverFresh(w, src, goal, visited, dep, level, a);
    DestsPush(queue, p);
    DiscoverClosed(w, visited, dep, Dests(queue) + {cur.dest}, Dests(queue + [p]) + {cur.dest}, a, level + 1);
  }

  /** Once every neighbour of the expanded square is discovered, that square is closed. */
  lemma {:induction false} CloseKeeps(w: World, src: Cell, goal: Cell, queue: seq<Path>, visited: set<Cell>,
                   dep: map<Cell, nat>, level: nat, split: nat, c: Cell)
    requires BfsInv(w, src, goal, queue, visited, dep, level, split, {c})
    requires c in dep && dep[c] == level
    requires forall v :: Linked(w, T, c, v) ==> v in visited
    ensures BfsInv(w, src, goal, queue, visited, dep, level, split, {})
  {
  }

  /** Every walk from `src` of at most `level` moves runs through discovered squares, each no deeper than its position. */
  lemma {:induction false} ShortWalkSeen(w: World, src: Cell, s: seq<Cell>, visited: set<Cell>,
                                         dep: map<Cell, nat>, level: nat)
    requires visited == dep.Keys && src in visited && dep[src] == 0
    requires forall u, v :: u in visited && dep[u] < level && Linked(w, T, u, v) ==> v in visited && dep[v] <= dep[u] + 1
    requires WalkFrom(w, T, s, src) && |s| - 1 <= level
    ensures forall i :: 0 <= i < |s| ==> s[i] in visited && dep[s[i]] <= i
    decreases |s|
  {
    if |s| > 1 {
      var front := s[..|s| - 1];
      assert WalkFrom(w, T, front, src) by {
        forall i | 0 <= i < |front| - 1
          ensures Linked(w, T, front[i], front[i + 1])
        {
          assert front[i] == s[i] && front[i + 1] == s[i + 1];
        }
      }
      ShortWalkSeen(w, src, front, visited, dep, level);
      forall i | 0 <= i < |s|
        ensures s[i] in visited && dep[s[i]] <= i
      {
        if i < |s| - 1 {
          assert s[i] == front[i];
        } else {
          assert s[i - 1] == front[i - 1];
          assert Linked(w, T, s[i - 1], s[i]);
        }
      }
    }
  }

  /** The square discovered at `level + 1` that first touches the goal is as close as any walk gets. */
  lemma {:induction false} FirstHitIsShortest(w: World, src: Cell, goal: Cell, queue: seq<Path>, visited: set<Cell>,
                           dep: map<Cell, nat>, level: nat, split: nat, c: Cell, s: seq<Cell>)
    requires BfsInv(w, src, goal, queue, visited, dep, level, split, {c})
    requires c in dep && dep[c] == level
    requires WalkFrom(w, T, s, src) && s[|s| - 1] != src && IsAdjacent(s[|s| - 1], goal)
    ensures level + 1 <= |s| - 1
  {
    forall u | u in visited && dep[u] < level
      ensures u !in Dests(queue) && u != c
    {
    }
    if |s| - 1 <= level {
      ShortWalkSeen(w, src, s, visited, dep, level);
    }
  }

  /** The search starts with only `src` discovered and queued. */
  lemma {:induction false} InitKeeps(w: World, src: Cell, goal: Cell)
    ensures BfsInv(w, src, goal, [Root(src, 0.0)], {src}, map[src := 0], 0, 1, {})
  {
    var q := [Root(src, 0.0)];
    assert Cells(q[0]) == [src];
    assert Dests(q) == {src};
  }

  /**
   * The inner loop of `search`: discover the unvisited neighbours of `cur`,
   * returning the first one next to the goal, queueing the others.
   */
  method Expand(w: World, src: Cell, goal: Cell, queue: seq<Path>, visited: set<Cell>,
                ghost dep: map<Cell, nat>, ghost level: nat, ghost split: nat, cur: Path)
    returns (found: Option<Path>, queue': seq<Path>, visited': set<Cell>, ghost dep': map<Cell, nat>)
    requires BfsInv(w, src, goal, queue, visited, dep, level, split, {cur.dest})
    requires Node(w, src, visited, dep, cur) && Steps(cur) == level
    ensures found.Some? ==>
              found.value.Extend? && PathFrom(w, T, found.value, src) && UnitEdges(found.value)
              && found.value.dest != src && IsAdjacent(found.value.dest, goal)
    ensures found.Some? ==>
              forall s :: WalkFrom(w, T, s, src) && s[|s| - 1] != src && IsAdjacent(s[|s| - 1], goal) ==>
                Steps(found.value) <= |s| - 1
    ensures found.None? ==> BfsInv(w, src, goal, queue', visited', dep', level, split, {})
    ensures found.None? ==> visited <= visited' <= Universe(w, src) && (visited' == visited ==> queue' == queue)
  {
    var c := cur.dest;
    var neighbors := GetAdjacentVertices(w, T, c);
    NeighbourSetSpec(w, T, c);
    queue', visited', dep' := queue, visited, dep;
    var todo := neighbors;
    while todo != {}
      invariant todo <= neighbors
      invariant BfsInv(w, src, goal, queue', visited', dep', level, split, {c})
      invariant Node(w, src, visited', dep', cur)
      invariant forall v :: v in neighbors && v !in todo ==> v in visited'
      invariant visited <= visited' && (visited' == visited ==> queue' == queue)
      decreases |todo|
    {
      var adjacent :| adjacent in todo;
      todo := todo - {adjacent};
      if adjacent !in visited' {
        var newPath := Extend(adjacent, 1.0, 0.0, cur);
        if IsAdjacent(adjacent, goal) {
          ExtendKeepsPathFrom(w, T, cur, src, adjacent, 1.0, 0.0);
          forall s | WalkFrom(w, T, s, src) && s[|s| - 1] != src && IsAdjacent(s[|s| - 1], goal)
            ensures Steps(newPath) <= |s| - 1
          {
            FirstHitIsShortest(w, src, goal, queue', visited', dep', level, split, c, s);
          }
          return Some(newPath), queue', visited', dep';
        }
        DiscoverKeeps(w, src, goal, queue', visited', dep', level, split, cur, adjacent);
        NodeGrows(w, src, visited', dep', cur, adjacent, level + 1);
        visited' := visited' + {adjacent};
        dep' := dep'[adjacent := level + 1];
        queue' := queue' + [newPath];
      }
    }
    CloseKeeps(w, src, goal, queue', visited', dep', level, split, c);
    found := None;
  }

  /** A node stays a queued node when a fresh square is discovered. */
  lemma {:induction false} NodeGrows(w: World, src: Cell, visited: set<Cell>, dep: map<Cell, nat>, p: Path, a: Cell, d: nat)
    requires Node(w, src, visited, dep, p) && a !in visited
    ensures Node(w, src, visited + {a}, dep[a := d], p)
  {
  }

  /** One round of the outer loop: take the head of the queue and expand it. */
  method Round(w: World, src: Cell, goal: Cell, queue: seq<Path>, visited: set<Cell>,
               ghost dep: map<Cell, nat>, ghost level: nat, ghost split: nat)
    returns (found: Option<Path>, queue': seq<Path>, visited': set<Cell>,
             ghost dep': map<Cell, nat>, ghost level': nat, ghost split': nat)
    requires BfsInv(w, src, goal, queue, visited, dep, level, split, {})
    requires |queue| > 0
    ensures found.Some? ==>
              found.value.Extend? && PathFrom(w, T, found.value, src) && UnitEdges(found.value)
              && found.value.dest != src && IsAdjacent(found.value.dest, goal)
    ensures found.Some? ==>
              forall s :: WalkFrom(w, T, s, src) && s[|s| - 1] != src && IsAdjacent(s[|s| - 1], goal) ==>
                Steps(found.value) <= |s| - 1
    ensures found.None? ==> BfsInv(w, src, goal, queue', visited', dep', level', split', {})
    ensures found.None? ==>
              |Universe(w, src) - visited'| < |Universe(w, src) - visited|
              || (visited' == visited && |queue'| < |queue|)
  {
    var cur := queue[0];
    PopKeeps(w, src, goal, queue, visited, dep, level, split);
    level', split' := Steps(cur), PopSplit(queue, split);
    found, queue', visited', dep' := Expand(w, src, goal, queue[1..], visited, dep, level', split', cur);
    if found.None? && visited' != visited {
      FewerUndiscovered(Universe(w, src), visited, visited');
    }
  }

  /**
   * `search`: breadth-first search from `src`.  When `src` is the goal the
   * result is the one-square route.  Otherwise a result is a non-revisiting
   * walk of unit-cost moves that ends next to the goal (never on `src`), and
   * no walk reaches a square next to the goal in fewer moves; no result
   * means no walk from `src` reaches such a square at all.
   */
  method Search(w: World, src: Cell, goal: Cell) returns (r: Option<Path>)
    ensures src == goal ==> r == Some(Root(src, 0.0))
    ensures src != goal && r.Some? ==>
              r.value.Extend? && PathFrom(w, T, r.value, src) && UnitEdges(r.value)
              && r.value.dest != src && IsAdjacent(r.value.dest, goal)
    ensures src != goal && r.Some? ==>
              forall s :: WalkFrom(w, T, s, src) && s[|s| - 1] != src && IsAdjacent(s[|s| - 1], goal) ==>
                Steps(r.value) <= |s| - 1
    ensures src != goal && r.None? ==>
              forall s :: WalkFrom(w, T, s, src) ==> forall i :: 0 <= i < |s| && s[i] != src ==> !IsAdjacent(s[i], goal)
  {
    if src == goal {
      return Some(Root(src, 0.0));
    }
    var visited := {src};
    ghost var dep: map<Cell, nat> := map[src := 0];
    ghost var level: nat, split: nat := 0, 1;
    var queue := [Root(src, 0.0)];
    InitKeeps(w, src, goal);
    while |queue| > 0
      invariant BfsInv(w, src, goal, queue, visited, dep, level, split, {})
      decreases |Universe(w, src) - visited|, |queue|
    {
      var found;
      found, queue, visited, dep, level, split := Round(w, src, goal, queue, visited, dep, level, split);
      if found.Some? {
        return found;
      }
    }
    forall s | WalkFrom(w, T, s, src)
      ensures forall i :: 0 <= i < |s| && s[i] != src ==> !IsAdjacent(s[i], goal)
    {
      WalkStaysInside(w, T, s, visited);
    }
    return None;
  }
}
