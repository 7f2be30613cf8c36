/**
 * The depth-first stealth planner.  It keeps a stack of nodes, expands the
 * most recently pushed one, and stops at the first square it discovers that
 * is one king's move from the goal.  The route it returns need not be short,
 * but it is a valid route, and it fails only when no route exists.
 */
module DfsMaze {
  import opened Grid
  import opened DistanceMetric
  import opened Paths
  import opened Maze

  /** Units never block this planner; resources and the map edge do. */
  const T: Topology := ResourcesBlock

  /** A stacked node: a non-revisiting walk of unit-cost moves through discovered squares. */
  ghost predicate Node(w: World, src: Cell, visited: set<Cell>, p: Path)
  {
    PathFrom(w, T, p, src) && UnitEdges(p) && CellsIn(p, visited)
  }

  /**
   * The loop invariant.  The stack is held top first.  Discovered squares
   * that are neither stacked nor in `open` (the square being expanded) have
   * all their neighbours discovered, and no discovered square but `src` is
   * next to the goal.
   */
  ghost predicate DfsInv(w: World, src: Cell, goal: Cell, stack: seq<Path>, visited: set<Cell>, open: set<Cell>)
  {
    (forall j :: 0 <= j < |stack| ==> Node(w, src, visited, stack[j]))
    && visited <= Universe(w, src) && src in visited
    && (forall c :: c in visited && c != src ==> !IsAdjacent(c, goal))
    && (forall u, v :: u in visited && u !in Dests(stack) + open && Linked(w, T, u, v) ==> v in visited)
  }

  lemma {:induction false} InitKeeps(w: World, src: Cell, goal: Cell)
    ensures DfsInv(w, src, goal, [Root(src, 0.0)], {src}, {})
  {
    var st := [Root(src, 0.0)];
    assert Cells(st[0]) == [src];
    assert Dests(st) == {src};
  }

  /** Popping the top of the stack: its square is being expanded. */
  lemma {:induction false} PopKeeps(w: World, src: Cell, goal: Cell, stack: seq<Path>, visited: set<Cell>)
    requires DfsInv(w, src, goal, stack, visited, {})
    requires |stack| > 0
    ensures Node(w, src, visited, stack[0])
    ensures DfsInv(w, src, goal, stack[1..], visited, {stack[0].dest})
  {
    var st := stack[1..];
    forall u | u in Dests(stack) && u != stack[0].dest
      ensures u in Dests(st)
    {
      var j :| 0 <= j < |stack| && stack[j].dest == u;
      assert st[j - 1] == stack[j];
    }
    forall j | 0 <= j < |st|
      ensures Node(w, src, visited, st[j])
    {
      assert st[j] == stack[j + 1];
    }
  }

  /** Discovering a fresh neighbour of the expanded node and pushing it. */
  lemma {:induction false} DiscoverKeeps(w: World, src: Cell, goal: Cell, stack: seq<Path>, visited: set<Cell>, cur: Path, a: Cell)
    requires DfsInv(w, src, goal, stack, visited, {cur.dest})
    requires Node(w, src, visited, cur)
    requires Linked(w, T, cur.dest, a) && a !in visited && !IsAdjacent(a, goal)
    ensures Node(w, src, visited + {a}, cur)
    ensures DfsInv(w, src, goal, [Extend(a, 1.0, 0.0, cur)] + stack, visited + {a}, {cur.dest})
  {
    var p := Extend(a, 1.0, 0.0, cur);
    var st := [p] + stack;
    ExtendKeepsPathFrom(w, T, cur, src, a, 1.0, 0.0);
    BoardCellsAreInBounds(w, a);
    forall j | 0 <= j < |st|
      ensures Node(w, src, visited + {a}, st[j])
    {
      if j > 0 {
        assert st[j] == stack[j - 1];
      }
    }
    forall u | u in Dests(stack)
      ensures u in Dests(st)
    {
      var j :| 0 <= j < |stack| && stack[j].dest == u;
      assert st[j + 1] == stack[j];
    }
    assert st[0].dest == a;
  }

  /**
   * The inner loop of `search`: discover the unvisited neighbours of `cur`,
   * returning the first one next to the goal, pushing the others.
   */
  method Expand(w: World, src: Cell, goal: Cell, stack: seq<Path>, visited: set<Cell>, cur: Path)
    returns (found: Option<Path>, stack': seq<Path>, visited': set<Cell>)
    requires DfsInv(w, src, goal, stack, visited, {cur.dest})
    requires Node(w, src, visited, cur)
    ensures found.Some? ==>
              found.value.Extend? && PathFrom(w, T, found.value, src) && UnitEdges(found.value)
              && found.value.dest != src && IsAdjacent(found.value.dest, goal)
    ensures found.None? ==> DfsInv(w, src, goal, stack', visited', {})
    ensures found.None? ==> visited <= visited' <= Universe(w, src) && (visited' == visited ==> stack' == stack)
  {
    var c := cur.dest;
    var neighbors := GetAdjacentVertices(w, T, c);
    NeighbourSetSpec(w, T, c);
    stack', visited' := stack, visited;
    var todo := neighbors;
    while todo != {}
      invariant todo <= neighbors
      invariant DfsInv(w, src, goal, stack', visited', {c})
      invariant Node(w, src, visited', cur)
      invariant forall v :: v in neighbors && v !in todo ==> v in visited'
      invariant visited <= visited' && (visited' == visited ==> stack' == stack)
      decreases |todo|
    {
      var adjacent :| adjacent in todo;
      todo := todo - {adjacent};
      if adjacent !in visited' {
        var newPath := Extend(adjacent, 1.0, 0.0, cur);
        if IsAdjacent(adjacent, goal) {
          ExtendKeepsPathFrom(w, T, cur, src, adjacent, 1.0, 0.0);
          return Some(newPath), stack', visited';
        }
        DiscoverKeeps(w, src, goal, stack', visited', cur, adjacent);
        visited' := visited' + {adjacent};
        stack' := [newPath] + stack';
      }
    }
    found := None;
  }

  /** One round of the outer loop: pop the top of the stack and expand it. */
  method Round(w: World, src: Cell, goal: Cell, stack: seq<Path>, visited: set<Cell>)
    returns (found: Option<Path>, stack': seq<Path>, visited': set<Cell>)
    requires DfsInv(w, src, goal, stack, visited, {})
    requires |stack| > 0
    ensures found.Some? ==>
              found.value.Extend? && PathFrom(w, T, found.value, src) && UnitEdges(found.value)
              && found.value.dest != src && IsAdjacent(found.value.dest, goal)
    ensures found.None? ==> DfsInv(w, src, goal, stack', visited', {})
    ensures found.None? ==>
              |Universe(w, src) - visited'| < |Universe(w, src) - visited|
              || (visited' == visited && |stack'| < |stack|)
  {
    var cur := stack[0];
    PopKeeps(w, src, goal, stack, visited);
    found, stack', visited' := Expand(w, src, goal, stack[1..], visited, cur);
    if found.None? && visited' != visited {
      FewerUndiscovered(Universe(w, src), visited, visited');
    }
  }

  /**
   * `search`: depth-first search from `src`.  When `src` is the goal the
   * result is the one-square route.  Otherwise a result is a non-revisiting
   * walk of unit-cost moves that ends next to the goal (never on `src`); no
   * result means no walk from `src` reaches a square next to the goal.
   */
  method Search(w: World, src: Cell, goal: Cell) returns (r: Option<Path>)
    ensures src == goal ==> r == Some(Root(src, 0.0))
    ensures src != goal && r.Some? ==>
              r.value.Extend? && PathFrom(w, T, r.value, src) && UnitEdges(r.value)
              && r.value.dest != src && IsAdjacent(r.value.dest, goal)
    ensures src != goal && r.None? ==>
              forall s :: WalkFrom(w, T, s, src) ==> forall i :: 0 <= i < |s| && s[i] != src ==> !IsAdjacent(s[i], goal)
  {
    if src == goal {
      return Some(Root(src, 0.0));
    }
    var visited := {src};
    var stack := [Root(src, 0.0)];
    InitKeeps(w, src, goal);
    while |stack| > 0
      invariant DfsInv(w, src, goal, stack, visited, {})
      decreases |Universe(w, src) - visited|, |stack|
    {
      var found;
      found, stack, visited := Round(w, src, goal, stack, visited);
      if found.Some? {
        return found;
      }
    }
    forall s | WalkFrom(w, T, s, src)
      ensures forall i :: 0 <= i < |s| && s[i] != src ==> !IsAdjacent(s[i], goal)
    {
      WalkStaysInside(w, T, s, visited);
    }
    return None;
  }
}
