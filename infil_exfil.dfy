/**
 * The risk policy of the infiltrate/exfiltrate agent: how far the closest
 * enemy is, how expensive it is to step onto a square, and when the current
 * plan has become unsafe.  Costs are exact reals; `InfilExfilAgent` computes them
 * in single-precision floats.
 */
module InfilExfil {
  import opened Grid
  import opened DistanceMetric
  import opened Paths

  /** Starting value of the closest-enemy scan, reported when no enemy is scanned. */
  const FarAway: real := 1000.0

  /** Penalty per enemy whose range (plus two squares) covers the destination. */
  const RiskPenalty: real := 1000.0

  /** Numerator of the inverse-square proximity term. */
  const Proximity: real := 10000.0

  /** A plan square this close to an enemy forces a replan. */
  const DangerRadius: real := 3.0

  /**
   * The enemies a scan looks at.  The scans iterate the other-enemy ids and
   * leave the loop at the first id whose unit is gone, so only the ids
   * before it count.
   */
  function Scanned(w: World, enemies: seq<int>): (r: seq<int>)
    ensures r <= enemies
    ensures forall i :: 0 <= i < |r| ==> r[i] in w.units
    ensures |r| < |enemies| ==> enemies[|r|] !in w.units
  {
    if |enemies| == 0 || enemies[0] !in w.units then [] else [enemies[0]] + Scanned(w, enemies[1..])
  }

  function RealMin(a: real, b: real): real
  {
    if a <= b then a else b
  }

  function Distance(w: World, id: int, v: Cell): real
    requires id in w.units
  {
    Chebyshev(v, w.units[id].pos) as real
  }

  /** The running minimum after scanning `ids` in order, starting from `FarAway`. */
  function MinOver(w: World, ids: seq<int>, v: Cell): real
    requires forall i :: 0 <= i < |ids| ==> ids[i] in w.units
  {
    if |ids| == 0 then FarAway
    else RealMin(MinOver(w, ids[..|ids| - 1], v), Distance(w, ids[|ids| - 1], v))
  }

  /** `minEnemyDist`: the Chebyshev distance from `v` to the closest scanned enemy, capped at `FarAway`. */
  function MinEnemyDist(w: World, enemies: seq<int>, v: Cell): real
  {
    MinOver(w, Scanned(w, enemies), v)
  }

  /** How many scanned enemies have `v` within their attack range plus two squares. */
  function RiskOver(w: World, ids: seq<int>, v: Cell): nat
    requires forall i :: 0 <= i < |ids| ==> ids[i] in w.units
  {
    if |ids| == 0 then 0
    else RiskOver(w, ids[..|ids| - 1], v)
         + (if Distance(w, ids[|ids| - 1], v) <= (w.units[ids[|ids| - 1]].range + 2) as real then 1 else 0)
  }

  function RiskCount(w: World, enemies: seq<int>, v: Cell): nat
  {
    RiskOver(w, Scanned(w, enemies), v)
  }

  /** The weight of a step as a function of the closest-enemy distance `m` and the number `k` of enemies in range. */
  function WeightFormula(m: real, k: nat): real
    requires m > 0.0
  {
    1.0 + Proximity / (m * m) + RiskPenalty * k as real
  }

  /**
   * `getEdgeWeight`: the cost of stepping onto `dst`.  It does not depend on
   * the square the step starts from.  When an enemy stands on `dst` the
   * source divides by zero; that square is excluded here.
   */
  function EdgeWeight(w: World, enemies: seq<int>, dst: Cell): real
    requires MinEnemyDist(w, enemies, dst) > 0.0
  {
    WeightFormula(MinEnemyDist(w, enemies, dst), RiskCount(w, enemies, dst))
  }

  /** A plan square is unsafe when a unit other than a town hall stands on it, or an enemy is within three squares. */
  predicate Threatened(w: World, enemies: seq<int>, v: Cell)
    requires Consistent(w)
  {
    (IsUnitAt(w, v) && !AtTownHall(w, v)) || MinEnemyDist(w, enemies, v) <= DangerRadius
  }

  /** Some square of the plan is unsafe. */
  predicate PlanUnsafe(w: World, enemies: seq<int>, plan: seq<Cell>)
    requires Consistent(w)
  {
    exists i :: 0 <= i < |plan| && Threatened(w, enemies, plan[i])
  }

  // ----- imperative operations ------------------------------------------

  /** The closest-enemy loop, leaving at the first missing enemy. */
  method MinEnemyDistance(w: World, enemies: seq<int>, v: Cell) returns (closest: real)
    ensures closest == MinEnemyDist(w, enemies, v)
  {
    ghost var scanned := Scanned(w, enemies);
    closest := FarAway;
    var k := 0;
    while k < |enemies|
      invariant 0 <= k <= |scanned|
      invariant scanned[..k] == enemies[..k]
      invariant closest == MinOver(w, scanned[..k], v)
    {
      var id := enemies[k];
      if id !in w.units {
        break;
      }
      assert k < |scanned|;
      assert scanned[..k + 1][..k] == scanned[..k];
      closest := RealMin(closest, Chebyshev(v, w.units[id].pos) as real);
      k := k + 1;
    }
    assert scanned[..k] == scanned;
  }

  /** The edge-weight loop: risk from every scanned enemy, then the inverse-square proximity term. */
  method GetEdgeWeight(w: World, enemies: seq<int>, src: Cell, dst: Cell) returns (weight: real)
    requires MinEnemyDist(w, enemies, dst) > 0.0
    ensures weight == EdgeWeight(w, enemies, dst)
  {
    ghost var scanned := Scanned(w, enemies);
    var riskFactor := 0.0;
    var k := 0;
    while k < |enemies|
      invariant 0 <= k <= |scanned|
      invariant scanned[..k] == enemies[..k]
      invariant riskFactor == RiskPenalty * RiskOver(w, scanned[..k], dst) as real
    {
      var id := enemies[k];
      if id !in w.units {
        break;
      }
      assert k < |scanned|;
      assert scanned[..k + 1][..k] == scanned[..k];
      if Chebyshev(dst, w.units[id].pos) as real <= (w.units[id].range + 2) as real {
        riskFactor := riskFactor + RiskPenalty;
      }
      k := k + 1;
    }
    assert scanned[..k] == scanned;
    var m := MinEnemyDistance(w, enemies, dst);
    weight := 1.0 + Proximity / (m * m) + riskFactor;
  }

  /** `shouldReplacePlan`: walks the plan from the bottom of the stack and stops at the first unsafe square. */
  method ShouldReplacePlan(w: World, enemies: seq<int>, plan: seq<Cell>) returns (replan: bool)
    requires Consistent(w)
    ensures replan == PlanUnsafe(w, enemies, plan)
  {
    var k := |plan|;
    while k > 0
      invariant 0 <= k <= |plan|
      invariant forall i :: k <= i < |plan| ==> !Threatened(w, enemies, plan[i])
    {
      k := k - 1;
      var v := plan[k];
      var d := MinEnemyDistance(w, enemies, v);
      if (IsUnitAt(w, v) && !AtTownHall(w, v)) || d <= DangerRadius {
        return true;
      }
    }
    return false;
  }

  // ----- properties -----------------------------------------------------

  /** The scan's minimum is a lower bound on every scanned distance and is attained (or is `FarAway`). */
  lemma {:induction false} MinOverSpec(w: World, ids: seq<int>, v: Cell)
    requires forall i :: 0 <= i < |ids| ==> ids[i] in w.units
    ensures MinOver(w, ids, v) <= FarAway
    ensures forall i :: 0 <= i < |ids| ==> MinOver(w, ids, v) <= Distance(w, ids[i], v)
    ensures MinOver(w, ids, v) == FarAway || exists i :: 0 <= i < |ids| && MinOver(w, ids, v) == Distance(w, ids[i], v)
    decreases |ids|
  {
    if |ids| > 0 {
      var front := ids[..|ids| - 1];
      MinOverSpec(w, front, v);
      forall i | 0 <= i < |ids|
        ensures MinOver(w, ids, v) <= Distance(w, ids[i], v)
      {
        if i < |ids| - 1 {
          assert ids[i] == front[i];
        }
      }
      if MinOver(w, ids, v) != FarAway && MinOver(w, ids, v) == MinOver(w, front, v) {
        var i :| 0 <= i < |front| && MinOver(w, front, v) == Distance(w, front[i], v);
        assert ids[i] == front[i];
      }
    }
  }

  /** `minEnemyDist` is the distance to the closest enemy the scan reaches, or 1000 when it reaches none closer. */
  lemma MinEnemyDistSpec(w: World, enemies: seq<int>, v: Cell)
    ensures 0.0 <= MinEnemyDist(w, enemies, v) <= FarAway
    ensures forall i :: 0 <= i < |Scanned(w, enemies)| ==>
              MinEnemyDist(w, enemies, v) <= Distance(w, Scanned(w, enemies)[i], v)
    ensures MinEnemyDist(w, enemies, v) == FarAway ||
            exists i :: 0 <= i < |Scanned(w, enemies)| && MinEnemyDist(w, enemies, v) == Distance(w, Scanned(w, enemies)[i], v)
  {
    MinOverSpec(w, Scanned(w, enemies), v);
  }

  /** Every step costs at least 1, plus exactly 1000 for each enemy in range. */
  lemma WeightFormulaBounds(m: real, k: nat)
    requires m > 0.0
    ensures WeightFormula(m, k) > 1.0 + RiskPenalty * k as real
    ensures WeightFormula(m, k + 1) == WeightFormula(m, k) + RiskPenalty
  {
    assert m * m > 0.0;
    assert Proximity / (m * m) > 0.0;
  }

  /** With the same risk, a closer enemy never makes a step cheaper. */
  lemma WeightFormulaAntitone(m1: real, m2: real, k: nat)
    requires 0.0 < m1 <= m2
    ensures WeightFormula(m2, k) <= WeightFormula(m1, k)
  {
    assert m1 * m1 <= m1 * m2 <= m2 * m2;
    assert m1 * m1 > 0.0;
    assert Proximity / (m2 * m2) <= Proximity / (m1 * m1) by {
      assert Proximity / (m2 * m2) * (m2 * m2) == Proximity;
      assert Proximity / (m1 * m1) * (m1 * m1) == Proximity;
    }
  }

  /**
   * No enemy scanned by the policy stands on a square the infiltration
   * planner may enter (when the target is not itself listed as an other
   * enemy), so on those squares the edge weight is always defined.
   */
  lemma NeighbourWeightDefined(w: World, enemies: seq<int>, target: int, v: Cell)
    requires Consistent(w)
    requires target !in enemies
    requires Passable(w, UnitsBlockExceptTarget(target), v)
    ensures MinEnemyDist(w, enemies, v) > 0.0
  {
    MinEnemyDistSpec(w, enemies, v);
    var scanned := Scanned(w, enemies);
    if MinEnemyDist(w, enemies, v) != FarAway {
      var i :| 0 <= i < |scanned| && MinEnemyDist(w, enemies, v) == Distance(w, scanned[i], v);
      var id := scanned[i];
      assert id == enemies[i];
      var pos := w.units[id].pos;
      assert w.occupant[pos] == id && id != target;
      MetricAxioms(v, pos);
    }
  }
}
