/**
 * The open-loop lab agent: a single footman that walks north until it is
 * next to the gold mine and then gathers from it, and once the mine is gone
 * walks east towards the enemy footman and attacks it.  The decision is made
 * afresh every turn from the unit, enemy and mine positions alone.
 */
module OpenLoop {
  import opened Grid
  import opened DistanceMetric
  import Coordinate

  /** `isAdjacent`: the two squares are one orthogonal step apart. */
  predicate IsAdjacent(unitX: int, unitY: int, resourceX: int, resourceY: int)
  {
    Abs(unitX - resourceX) + Abs(unitY - resourceY) == 1
  }

  /**
   * Adjacency is Manhattan distance one, it is symmetric, a square is never
   * adjacent to itself, and the adjacent squares are exactly the four
   * cardinal neighbours.
   */
  lemma IsAdjacentSpec(ux: int, uy: int, rx: int, ry: int)
    ensures IsAdjacent(ux, uy, rx, ry) <==> Manhattan(Cell(ux, uy), Cell(rx, ry)) == 1
    ensures IsAdjacent(ux, uy, rx, ry) <==> IsAdjacent(rx, ry, ux, uy)
    ensures IsAdjacent(ux, uy, rx, ry) ==> (ux, uy) != (rx, ry)
    ensures IsAdjacent(ux, uy, rx, ry) <==> Cell(rx, ry) in Coordinate.CardinalNeighbours(Cell(ux, uy))
  {
    Coordinate.CardinalNeighboursSpec(Cell(ux, uy));
  }

  /**
   * `getDirectionToMoveTowards` as `OpenLoopAgent` has it: east or west first,
   * then north when the unit's y is smaller than the target's, south when it
   * is larger, and nothing when the squares coincide.
   */
  function DirectionToMoveTowardsAsWritten(unitX: int, unitY: int, targetX: int, targetY: int): (r: Option<Direction>)
    ensures r.None? <==> unitX == targetX && unitY == targetY
  {
    if unitX < targetX then Some(East)
    else if unitX > targetX then Some(West)
    else if unitY < targetY then Some(North)
    else if unitY > targetY then Some(South)
    else None
  }

  /**
   * With y growing southwards, the vertical choice above points the wrong
   * way: a unit directly above its target is sent north, away from it.
   */
  lemma DirectionAsWrittenMovesAway()
    ensures DirectionToMoveTowardsAsWritten(0, 0, 0, 1) == Some(North)
    ensures Manhattan(Shift(Cell(0, 0), North), Cell(0, 1)) == 2
    ensures Manhattan(Cell(0, 0), Cell(0, 1)) == 1
  {
  }

  /** The direction choice with the vertical case turned the right way round. */
  function DirectionToMoveTowards(unitX: int, unitY: int, targetX: int, targetY: int): (r: Option<Direction>)
    ensures r.None? <==> unitX == targetX && unitY == targetY
  {
    if unitX < targetX then Some(East)
    else if unitX > targetX then Some(West)
    else if unitY < targetY then Some(South)
    else if unitY > targetY then Some(North)
    else None
  }

  /**
   * The corrected choice agrees with `OpenLoopAgent`'s whenever the squares
   * differ in x, and one step in the chosen direction always brings the unit
   * exactly one square closer to the target.
   */
  lemma DirectionToMoveTowardsSpec(ux: int, uy: int, tx: int, ty: int)
    ensures ux != tx ==> DirectionToMoveTowards(ux, uy, tx, ty) == DirectionToMoveTowardsAsWritten(ux, uy, tx, ty)
    ensures DirectionToMoveTowards(ux, uy, tx, ty).Some? ==>
              var d := DirectionToMoveTowards(ux, uy, tx, ty).value;
              Coordinate.IsCardinal(d)
              && Manhattan(Shift(Cell(ux, uy), d), Cell(tx, ty)) + 1 == Manhattan(Cell(ux, uy), Cell(tx, ty))
  {
  }

  /** The orders the footman can be given. */
  datatype Action =
    | PrimitiveMove(unit: int, dir: Direction)
    | PrimitiveGather(unit: int, dir: Direction)
    | PrimitiveAttack(unit: int, target: int)

  /**
   * `middleStep`: with the mine still present, gather eastwards when next to
   * it and step north otherwise; with the mine gone, step east until next to
   * the enemy and then attack it.  `gold` is the mine's square, `None` once
   * it is used up.
   */
  function MiddleStep(myUnitId: int, enemyUnitId: int, me: Cell, enemy: Cell, gold: Option<Cell>): (actions: map<int, Action>)
    ensures actions.Keys == {myUnitId}
    ensures actions[myUnitId].unit == myUnitId
  {
    if gold.Some? then
      if IsAdjacent(me.x, me.y, gold.value.x, gold.value.y) then
        map[myUnitId := PrimitiveGather(myUnitId, East)]
      else
        map[myUnitId := PrimitiveMove(myUnitId, North)]
    else if !IsAdjacent(me.x, me.y, enemy.x, enemy.y) then
      map[myUnitId := PrimitiveMove(myUnitId, East)]
    else
      map[myUnitId := PrimitiveAttack(myUnitId, enemyUnitId)]
  }

  /** The situation a turn falls under; exactly one applies. */
  predicate GatherCase(me: Cell, gold: Option<Cell>)
  {
    gold.Some? && IsAdjacent(me.x, me.y, gold.value.x, gold.value.y)
  }

  predicate ApproachMineCase(me: Cell, gold: Option<Cell>)
  {
    gold.Some? && !IsAdjacent(me.x, me.y, gold.value.x, gold.value.y)
  }

  predicate ApproachEnemyCase(me: Cell, enemy: Cell, gold: Option<Cell>)
  {
    gold.None? && Manhattan(me, enemy) != 1
  }

  predicate AttackCase(me: Cell, enemy: Cell, gold: Option<Cell>)
  {
    gold.None? && Manhattan(me, enemy) == 1
  }

  /**
   * The four situations are mutually exclusive and cover every turn, and in
   * each one the unit receives the order the agent's plan calls for; in
   * particular it attacks only once the mine is gone and only an enemy one
   * step away, and it gathers only from a mine one step away.
   */
  lemma MiddleStepSpec(myUnitId: int, enemyUnitId: int, me: Cell, enemy: Cell, gold: Option<Cell>)
    ensures var n := (if GatherCase(me, gold) then 1 else 0) + (if ApproachMineCase(me, gold) then 1 else 0)
                     + (if ApproachEnemyCase(me, enemy, gold) then 1 else 0) + (if AttackCase(me, enemy, gold) then 1 else 0);
            n == 1
    ensures MiddleStep(myUnitId, enemyUnitId, me, enemy, gold)[myUnitId] == PrimitiveGather(myUnitId, East) <==> GatherCase(me, gold)
    ensures MiddleStep(myUnitId, enemyUnitId, me, enemy, gold)[myUnitId] == PrimitiveMove(myUnitId, North) <==> ApproachMineCase(me, gold)
    ensures MiddleStep(myUnitId, enemyUnitId, me, enemy, gold)[myUnitId] == PrimitiveMove(myUnitId, East) <==> ApproachEnemyCase(me, enemy, gold)
    ensures MiddleStep(myUnitId, enemyUnitId, me, enemy, gold)[myUnitId] == PrimitiveAttack(myUnitId, enemyUnitId) <==> AttackCase(me, enemy, gold)
  {
    IsAdjacentSpec(me.x, me.y, enemy.x, enemy.y);
  }
}
