/**
 * The infiltrate/exfiltrate mission: a special-operations agent that walks
 * to the enemy town hall, attacks it until it is gone, and walks back to
 * where it started.  The planner hooks are those of the concrete
 * infiltration agent (risk-weighted edges, unsafe-plan detection); the
 * heuristic is a parameter.
 */
module Mission {
  import opened Grid
  import opened DistanceMetric
  import opened Paths
  import opened SpecOps
  import InfilExfil

  datatype Phase = Infiltrate | Exfiltrate

  /** The primitive actions the agent issues; a move may carry no direction, as when `getDirectionToMoveTo` returns null. */
  datatype Action = Move(unit: int, direction: Option<Direction>) | Attack(unit: int, target: int)

  /** One tick: the actions issued, or a crash where `SpecOpsAgent` dereferences a missing unit or a missing route. */
  datatype TickOutcome = Acted(actions: map<int, Action>) | Crashed

  /**
   * The edge weight handed to the planner: the infiltration agent's weight
   * of the destination square.  Where that weight is undefined an enemy
   * stands on the square, which is then never a neighbour
   * (`PlannerWeightAgrees`), so the fallback value is never used.
   */
  function PlannerWeight(w: World, enemies: seq<int>): (Cell, Cell) -> real
  {
    (src: Cell, dst: Cell) =>
      if InfilExfil.MinEnemyDist(w, enemies, dst) > 0.0 then InfilExfil.EdgeWeight(w, enemies, dst) else 0.0
  }

  /** On every square the planner may enter, its weight is the infiltration agent's edge weight. */
  lemma PlannerWeightAgrees(w: World, enemies: seq<int>, target: int, src: Cell, dst: Cell)
    requires Consistent(w) && target !in enemies
    requires Linked(w, Topo(target), src, dst)
    ensures InfilExfil.MinEnemyDist(w, enemies, dst) > 0.0
    ensures PlannerWeight(w, enemies)(src, dst) == InfilExfil.EdgeWeight(w, enemies, dst)
  {
    InfilExfil.NeighbourWeightDefined(w, enemies, target, dst);
  }

  /** The phase machine: infiltration ends, for good, the first tick the target is gone. */
  function NextPhase(phase: Phase, targetAlive: bool): (p: Phase)
    ensures phase == Exfiltrate ==> p == Exfiltrate
    ensures p != phase <==> phase == Infiltrate && !targetAlive
  {
    if !targetAlive && phase == Infiltrate then Exfiltrate else phase
  }

  /** The plan stack is popped exactly when a waypoint remains and the unit has reached the pending one. */
  function Advance(plan: seq<Cell>, next: Option<Cell>, me: Cell): (r: (seq<Cell>, Option<Cell>))
    ensures |r.0| < |plan| <==> |plan| > 0 && HasArrived(next, me)
    ensures |r.0| < |plan| ==> r.0 == plan[1..] && r.1 == Some(plan[0])
    ensures |r.0| >= |plan| ==> r == (plan, next)
  {
    if |plan| > 0 && HasArrived(next, me) then (plan[1..], Some(plan[0])) else (plan, next)
  }

  /**
   * The action of a tick: move towards a pending waypoint the unit is not
   * on; otherwise attack a live target within one square; otherwise
   * nothing (a live but distant target only produces an error message).
   */
  function TickAction(myId: int, targetId: int, me: Cell, next: Option<Cell>, targetPos: Option<Cell>): (r: map<int, Action>)
    ensures r.Keys <= {myId}
    ensures (myId in r && r[myId].Move?) <==> next.Some? && next.value != me
    ensures myId in r && r[myId].Move? ==> r[myId] == Move(myId, DirectionToMoveTo(me, next.value))
    ensures (myId in r && r[myId].Attack?) <==>
              !(next.Some? && next.value != me) && targetPos.Some? && Chebyshev(me, targetPos.value) <= 1
    ensures myId in r && r[myId].Attack? ==> r[myId] == Attack(myId, targetId)
  {
    if next.Some? && next.value != me then
      map[myId := Move(myId, DirectionToMoveTo(me, next.value))]
    else if targetPos.Some? then
      if Abs(me.x - targetPos.value.x) > 1 || Abs(me.y - targetPos.value.y) > 1 then map[]
      else map[myId := Attack(myId, targetId)]
    else map[]
  }

  /** A move towards an adjacent waypoint always carries the direction that lands on it. */
  lemma MoveReachesWaypoint(myId: int, targetId: int, me: Cell, next: Cell, targetPos: Option<Cell>)
    requires Chebyshev(me, next) == 1
    ensures var r := TickAction(myId, targetId, me, Some(next), targetPos);
            myId in r && r[myId].Move? && r[myId].direction.Some? && Shift(me, r[myId].direction.value) == next
  {
    DirectionToMoveToSpec(me, next);
  }

  class SpecOpsAgent {
    const myUnitId: int
    const enemyTargetUnitId: int
    const otherEnemyUnitIds: seq<int>
    const heuristic: (Cell, Cell) -> real
    var entryPoint: Cell
    /** The waypoint stack, top first. */
    var currentPlan: seq<Cell>
    var nextVertex: Option<Cell>
    var phase: Phase

    /** The agent after unit discovery: its own unit, the town hall to destroy, and every other enemy unit. */
    constructor (myId: int, targetId: int, others: seq<int>, h: (Cell, Cell) -> real)
      ensures myUnitId == myId && enemyTargetUnitId == targetId && otherEnemyUnitIds == others && heuristic == h
      ensures phase == Infiltrate && currentPlan == [] && nextVertex == None
    {
      myUnitId, enemyTargetUnitId, otherEnemyUnitIds, heuristic := myId, targetId, others, h;
      entryPoint := Cell(0, 0);
      currentPlan, nextVertex, phase := [], None, Infiltrate;
    }

    function Topology(): Topology
      reads this
    {
      Topo(enemyTargetUnitId)
    }

    /** Where the current phase heads: the town hall while infiltrating, the entry point afterwards. */
    function Goal(w: World): Option<Cell>
      reads this
    {
      if phase == Exfiltrate then Some(entryPoint)
      else if enemyTargetUnitId in w.units then Some(w.units[enemyTargetUnitId].pos)
      else None
    }

    /** This tick replaces the plan: the phase changes, or the plan has become unsafe. */
    predicate Replans(w: World, oldPhase: Phase, oldPlan: seq<Cell>)
      requires Consistent(w)
    {
      (oldPhase == Infiltrate && enemyTargetUnitId !in w.units)
      || (!(oldPhase == Infiltrate && enemyTargetUnitId !in w.units)
          && InfilExfil.PlanUnsafe(w, otherEnemyUnitIds, oldPlan))
    }

    /**
     * `makePlan`: search from the unit's square to the phase's goal and
     * stack the route.  `None` is the crash of `makePlan`: a missing unit,
     * or a search that found nothing (including a unit already on its goal).
     */
    method MakePlan(w: World) returns (plan: Option<seq<Cell>>)
      ensures (myUnitId !in w.units || Goal(w).None?) ==> plan.None?
      ensures plan.Some? ==>
                (myUnitId in w.units && Goal(w).Some?
                 && PlanReaches(w, Topology(), w.units[myUnitId].pos, plan.value, Goal(w).value, phase == Exfiltrate))
      ensures plan.None? && myUnitId in w.units && Goal(w).Some? && w.units[myUnitId].pos != Goal(w).value ==>
                 forall s :: WalkFrom(w, Topology(), s, w.units[myUnitId].pos) ==> Goal(w).value !in s
    {
      if myUnitId !in w.units {
        return None;
      }
      var src := w.units[myUnitId].pos;
      var dst: Cell;
      if phase == Infiltrate {
        if enemyTargetUnitId !in w.units {
          return None;
        }
        dst := w.units[enemyTargetUnitId].pos;
      } else {
        dst := entryPoint;
      }
      var path := Search(w, enemyTargetUnitId, src, dst, PlannerWeight(w, otherEnemyUnitIds), heuristic);
      if path.None? {
        return None;
      }
      var stack := PlanFromPath(path.value, phase == Exfiltrate, entryPoint);
      PlanFromPathReaches(w, Topology(), src, path.value, dst, phase == Exfiltrate);
      return Some(stack);
    }

    /** `initialStep` after unit discovery: remember the start square as the entry point and plan the infiltration. */
    method InitialStep(w: World) returns (out: TickOutcome)
      modifies this
      ensures phase == old(phase) && nextVertex == old(nextVertex)
      ensures out.Acted? ==> out.actions == map[] && myUnitId in w.units && entryPoint == w.units[myUnitId].pos
      ensures out.Acted? ==>
                (Goal(w).Some? && PlanReaches(w, Topology(), entryPoint, currentPlan, Goal(w).value, phase == Exfiltrate))
      ensures out.Crashed? ==> currentPlan == old(currentPlan)
    {
      if myUnitId !in w.units {
        return Crashed;
      }
      entryPoint := w.units[myUnitId].pos;
      var plan := MakePlan(w);
      if plan.None? {
        return Crashed;
      }
      currentPlan := plan.value;
      return Acted(map[]);
    }

    /**
     * `middleStep`: update the phase, replan if needed, pop the next
     * waypoint once the pending one is reached, and choose the action.
     */
    method MiddleStep(w: World) returns (out: TickOutcome)
      requires Consistent(w)
      modifies this
      ensures phase == NextPhase(old(phase), enemyTargetUnitId in w.units)
      ensures entryPoint == old(entryPoint)
      ensures out.Crashed? ==> myUnitId !in w.units || Replans(w, old(phase), old(currentPlan))
      ensures out.Acted? ==> myUnitId in w.units
      ensures out.Acted? ==>
                out.actions == TickAction(myUnitId, enemyTargetUnitId, w.units[myUnitId].pos, nextVertex,
                                          if enemyTargetUnitId in w.units then Some(w.units[enemyTargetUnitId].pos) else None)
      ensures out.Acted? ==> nextVertex == old(nextVertex) || HasArrived(old(nextVertex), w.units[myUnitId].pos)
      ensures out.Acted? && !Replans(w, old(phase), old(currentPlan)) ==>
                (currentPlan, nextVertex) == Advance(old(currentPlan), old(nextVertex), w.units[myUnitId].pos)
      ensures out.Acted? && Replans(w, old(phase), old(currentPlan)) ==>
                Goal(w).Some? &&
                exists plan :: PlanReaches(w, Topology(), w.units[myUnitId].pos, plan, Goal(w).value, phase == Exfiltrate)
                               && (currentPlan, nextVertex) == Advance(plan, old(nextVertex), w.units[myUnitId].pos)
    {
      var replanned := false;
      if enemyTargetUnitId !in w.units && phase == Infiltrate {
        phase := Exfiltrate;
        var plan := MakePlan(w);
        if plan.None? {
          return Crashed;
        }
        currentPlan := plan.value;
        replanned := true;
      } else {
        var unsafe := InfilExfil.ShouldReplacePlan(w, otherEnemyUnitIds, currentPlan);
        if unsafe {
          var plan := MakePlan(w);
          if plan.None? {
            return Crashed;
          }
          currentPlan := plan.value;
          replanned := true;
        }
      }
      ghost var planned := currentPlan;
      if myUnitId !in w.units {
        return Crashed;
      }
      var me := w.units[myUnitId].pos;
      if |currentPlan| > 0 && HasArrived(nextVertex, me) {
        nextVertex := Some(currentPlan[0]);
        currentPlan := currentPlan[1..];
      }
      assert (currentPlan, nextVertex) == Advance(planned, old(nextVertex), me);
      var targetPos := if enemyTargetUnitId in w.units then Some(w.units[enemyTargetUnitId].pos) else None;
      out := Acted(TickAction(myUnitId, enemyTargetUnitId, me, nextVertex, targetPos));
    }
  }
}
