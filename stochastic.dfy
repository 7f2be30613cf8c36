/**
 * The stochastic maze world of the reinforcement-learning lab: the
 * transition model (the intended cardinal move succeeds with probability
 * 0.8, each perpendicular move happens with probability 0.1, a move into a
 * wall or a resource leaves the agent where it is), the reward table, and
 * the list of candidate directions the agent samples from.  Probabilities
 * are exact tenths.
 */
module Stochastic {
  import opened Grid
  import opened DistanceMetric
  import opened Coordinate

  /** `CARDINAL_DIRECTIONS`, in the order the loops visit them. */
  const CardinalDirections: seq<Direction> := [North, South, East, West]

  /** One transition of the model: where the agent lands and with how many tenths of probability. */
  datatype Transition = Transition(coord: Cell, tenths: nat)

  /** `areDirectionsPerpendicular`: only cardinal directions are ever perpendicular. */
  function AreDirectionsPerpendicular(a: Direction, b: Direction): bool
  {
    if a == North || a == South then b == East || b == West
    else if a == East || a == West then b == North || b == South
    else false
  }

  /** The cardinal direction pointing the other way. */
  function Opposite(d: Direction): Direction
  {
    match d
    case North => South
    case South => North
    case East => West
    case West => East
    case _ => d
  }

  /**
   * Perpendicularity is symmetric, holds only between cardinal directions,
   * and never between a direction and itself or its opposite; every other
   * pair of distinct cardinal directions is perpendicular.
   */
  lemma PerpendicularSpec(a: Direction, b: Direction)
    ensures AreDirectionsPerpendicular(a, b) ==> IsCardinal(a) && IsCardinal(b)
    ensures AreDirectionsPerpendicular(a, b) <==> AreDirectionsPerpendicular(b, a)
    ensures IsCardinal(a) ==> !AreDirectionsPerpendicular(a, a) && !AreDirectionsPerpendicular(a, Opposite(a))
    ensures IsCardinal(a) && IsCardinal(b) && b != a && b != Opposite(a) ==> AreDirectionsPerpendicular(a, b)
    ensures AreDirectionsPerpendicular(a, b) ==> XComponent(a) * XComponent(b) + YComponent(a) * YComponent(b) == 0
  {
  }

  /** Where a move in direction `d` from `src` ends: the neighbour, or `src` itself when the neighbour is off the map or a resource. */
  function Landing(w: World, src: Cell, d: Direction): Cell
  {
    var next := AdjacentCoordinate(src, d);
    if !InBounds(w, next) || IsResourceAt(w, next) then src else next
  }

  /** The probability, in tenths, the model gives to moving in `d` when `intended` was chosen. */
  function Weight(d: Direction, intended: Direction): nat
  {
    if d == intended then 8 else if AreDirectionsPerpendicular(d, intended) then 1 else 0
  }

  /** The directions among `ds`, in order, that the model gives a positive probability. */
  function Moves(ds: seq<Direction>, intended: Direction): (r: seq<Direction>)
    ensures |r| <= |ds|
  {
    if |ds| == 0 then []
    else if Weight(ds[0], intended) > 0 then [ds[0]] + Moves(ds[1..], intended)
    else Moves(ds[1..], intended)
  }

  /** The transition entry of a move. */
  function Entry(w: World, src: Cell, d: Direction, intended: Direction): Transition
  {
    Transition(Landing(w, src, d), Weight(d, intended))
  }

  /** The entries of a list of moves, one per move, duplicates kept. */
  function Entries(w: World, src: Cell, ds: seq<Direction>, intended: Direction): (r: seq<Transition>)
    ensures |r| == |ds|
    ensures forall i :: 0 <= i < |ds| ==> r[i] == Entry(w, src, ds[i], intended)
  {
    if |ds| == 0 then [] else [Entry(w, src, ds[0], intended)] + Entries(w, src, ds[1..], intended)
  }

  function TenthsSum(e: seq<Transition>): nat
  {
    if |e| == 0 then 0 else e[0].tenths + TenthsSum(e[1..])
  }

  lemma TenthsSumCons(t: Transition, e: seq<Transition>)
    ensures TenthsSum([t] + e) == t.tenths + TenthsSum(e)
  {
    assert ([t] + e)[1..] == e;
  }

  /** The moves of each intention, listed in cardinal order. */
  lemma MovesValue(intended: Direction)
    ensures Moves(CardinalDirections, intended) ==
              if intended == North || intended == South then [intended, East, West]
              else if intended == East || intended == West then [North, South, intended]
              else []
  {
    match intended
    case North =>
    case South =>
    case East =>
    case West =>
    case NorthEast =>
    case SouthEast =>
    case SouthWest =>
    case NorthWest =>
  }

  /**
   * The moves of a cardinal intention are exactly three: the intended one
   * and its two perpendiculars, never the opposite direction; a
   * non-cardinal intention has none.
   */
  lemma MovesSpec(intended: Direction)
    ensures IsCardinal(intended) ==> |Moves(CardinalDirections, intended)| == 3
    ensures IsCardinal(intended) ==> intended in Moves(CardinalDirections, intended)
    ensures Opposite(intended) !in Moves(CardinalDirections, intended) || !IsCardinal(intended)
    ensures forall d :: d in Moves(CardinalDirections, intended) ==> d == intended || AreDirectionsPerpendicular(d, intended)
    ensures !IsCardinal(intended) ==> Moves(CardinalDirections, intended) == []
  {
    MovesValue(intended);
  }

  lemma EntriesCons(w: World, src: Cell, d: Direction, ds: seq<Direction>, intended: Direction)
    ensures Entries(w, src, [d] + ds, intended) == [Entry(w, src, d, intended)] + Entries(w, src, ds, intended)
  {
    assert ([d] + ds)[1..] == ds;
  }

  /** The entries of three moves, and their total probability. */
  lemma EntriesOfThree(w: World, src: Cell, a: Direction, b: Direction, c: Direction, intended: Direction)
    ensures Entries(w, src, [a, b, c], intended) == [Entry(w, src, a, intended), Entry(w, src, b, intended), Entry(w, src, c, intended)]
    ensures TenthsSum(Entries(w, src, [a, b, c], intended)) == Weight(a, intended) + Weight(b, intended) + Weight(c, intended)
  {
    EntriesCons(w, src, c, [], intended);
    EntriesCons(w, src, b, [c], intended);
    EntriesCons(w, src, a, [b, c], intended);
    assert [a] + [b, c] == [a, b, c] && [b] + [c] == [b, c] && [c] + [] == [c];
    var e := [Entry(w, src, a, intended), Entry(w, src, b, intended), Entry(w, src, c, intended)];
    TenthsSumCons(e[2], []);
    TenthsSumCons(e[1], [e[2]]);
    TenthsSumCons(e[0], [e[1], e[2]]);
    assert [e[0]] + [e[1], e[2]] == e && [e[1]] + [e[2]] == [e[1], e[2]] && [e[2]] + [] == [e[2]];
  }

  /**
   * The transition model of a cardinal intention: the intended move with
   * eight tenths and the two perpendicular moves with one tenth each, in
   * cardinal order, ten tenths in all.
   */
  lemma {:induction false} TransitionsSpec(w: World, src: Cell, intended: Direction)
    requires IsCardinal(intended)
    ensures Entries(w, src, Moves(CardinalDirections, intended), intended) ==
              if intended == North || intended == South
              then [Transition(Landing(w, src, intended), 8), Transition(Landing(w, src, East), 1), Transition(Landing(w, src, West), 1)]
              else [Transition(Landing(w, src, North), 1), Transition(Landing(w, src, South), 1), Transition(Landing(w, src, intended), 8)]
    ensures TenthsSum(Entries(w, src, Moves(CardinalDirections, intended), intended)) == 10
  {
    MovesValue(intended);
    match intended
    case North => EntriesOfThree(w, src, North, East, West, North);
    case South => EntriesOfThree(w, src, South, East, West, South);
    case East => EntriesOfThree(w, src, North, South, East, East);
    case West => EntriesOfThree(w, src, North, South, West, West);
  }

  /** A move never leaves the legal squares: it lands on `src` or on a free cardinal neighbour of it. */
  lemma LandingSpec(w: World, src: Cell, d: Direction)
    requires IsCardinal(d)
    ensures Manhattan(src, Landing(w, src, d)) <= 1
    ensures InBounds(w, src) && !IsResourceAt(w, src) ==>
              InBounds(w, Landing(w, src, d)) && !IsResourceAt(w, Landing(w, src, d))
    ensures Landing(w, src, d) == src || Landing(w, src, d) == Shift(src, d)
  {
  }

  /**
   * `getTransitionProbs`: one entry per cardinal move the intention makes
   * possible, in the loop's order.  `None` is the fatal exit for a
   * non-cardinal intention.  Entries are kept apart even when they land on
   * the same square, since `StochasticAgent`'s pairs define no equality.
   */
  method GetTransitionProbs(w: World, src: Cell, dirToGo: Direction) returns (r: Option<seq<Transition>>)
    ensures r.None? <==> !IsCardinal(dirToGo)
    ensures r.Some? ==> r.value == Entries(w, src, Moves(CardinalDirections, dirToGo), dirToGo)
  {
    if !(dirToGo in CardinalDirections) {
      return None;
    }
    assert IsCardinal(dirToGo);
    var transitions: seq<Transition> := [];
    for k := 0 to |CardinalDirections|
      invariant transitions == Entries(w, src, Moves(CardinalDirections[..k], dirToGo), dirToGo)
    {
      var entry := TransitionFor(w, src, CardinalDirections[k], dirToGo);
      PrefixStep(w, src, k, dirToGo);
      transitions := transitions + entry;
    }
    assert CardinalDirections[..4] == CardinalDirections;
    return Some(transitions);
  }

  /**
   * The body of the loop of `getTransitionProbs` for one direction `d`: the
   * square it leads to (the square it starts from when blocked), with 0.8 when it is
   * the intended direction and 0.1 when it is perpendicular to it, and no
   * entry otherwise.
   */
  method TransitionFor(w: World, src: Cell, d: Direction, dirToGo: Direction) returns (entry: seq<Transition>)
    ensures entry == if Weight(d, dirToGo) > 0 then [Entry(w, src, d, dirToGo)] else []
  {
    var nextCoord := AdjacentCoordinate(src, d);
    if !InBounds(w, nextCoord) || IsResourceAt(w, nextCoord) {
      nextCoord := src;
    }
    if d == dirToGo {
      entry := [Transition(nextCoord, 8)];
    } else if AreDirectionsPerpendicular(d, dirToGo) {
      entry := [Transition(nextCoord, 1)];
    } else {
      entry := [];
    }
  }

  /** One more direction of the loop adds its entry exactly when the model gives it a positive probability. */
  lemma PrefixStep(w: World, src: Cell, k: nat, intended: Direction)
    requires k < |CardinalDirections|
    ensures var d := CardinalDirections[k];
            Entries(w, src, Moves(CardinalDirections[..k + 1], intended), intended) ==
              Entries(w, src, Moves(CardinalDirections[..k], intended), intended)
              + (if Weight(d, intended) > 0 then [Entry(w, src, d, intended)] else [])
  {
    var d := CardinalDirections[k];
    assert CardinalDirections[..k + 1] == CardinalDirections[..k] + [d];
    MovesSnoc(CardinalDirections[..k], d, intended);
    if Weight(d, intended) > 0 {
      EntriesSnoc(w, src, Moves(CardinalDirections[..k], intended), d, intended);
    }
  }

  lemma {:induction false} MovesSnoc(ds: seq<Direction>, d: Direction, intended: Direction)
    ensures Moves(ds + [d], intended) == if Weight(d, intended) > 0 then Moves(ds, intended) + [d] else Moves(ds, intended)
  {
    if |ds| > 0 {
      assert (ds + [d])[1..] == ds[1..] + [d];
      MovesSnoc(ds[1..], d, intended);
    } else {
      assert ([] + [d])[1..] == [];
    }
  }

  lemma {:induction false} EntriesSnoc(w: World, src: Cell, ds: seq<Direction>, d: Direction, intended: Direction)
    ensures Entries(w, src, ds + [d], intended) == Entries(w, src, ds, intended) + [Entry(w, src, d, intended)]
  {
    var l, r := Entries(w, src, ds + [d], intended), Entries(w, src, ds, intended) + [Entry(w, src, d, intended)];
    assert |l| == |r|;
    forall i | 0 <= i < |l|
      ensures l[i] == r[i]
    {
      if i < |ds| {
        assert (ds + [d])[i] == ds[i];
      }
    }
  }

  /**
   * `getNextDirection`'s candidate lists: the directions the model gives a
   * positive probability, in cardinal order, each with its probability in
   * tenths.  Which one is taken is a random draw and is not modelled.
   */
  method NextDirectionCandidates(chosen: Direction) returns (directions: seq<Direction>, probs: seq<nat>)
    ensures directions == Moves(CardinalDirections, chosen)
    ensures |probs| == |directions|
    ensures forall i :: 0 <= i < |probs| ==> probs[i] == Weight(directions[i], chosen)
  {
    directions, probs := [], [];
    for k := 0 to |CardinalDirections|
      invariant directions == Moves(CardinalDirections[..k], chosen)
      invariant |probs| == |directions|
      invariant forall i :: 0 <= i < |probs| ==> probs[i] == Weight(directions[i], chosen)
    {
      var d := CardinalDirections[k];
      MovesSnoc(CardinalDirections[..k], d, chosen);
      assert CardinalDirections[..k + 1] == CardinalDirections[..k] + [d];
      if d == chosen {
        directions := directions + [d];
        probs := probs + [8];
      } else if AreDirectionsPerpendicular(d, chosen) {
        directions := directions + [d];
        probs := probs + [1];
      }
    }
    assert CardinalDirections[..4] == CardinalDirections;
  }

  /** The sampled candidates and the transition model agree: same directions, same probabilities, ten tenths in all. */
  lemma {:induction false} CandidatesMatchModel(w: World, src: Cell, chosen: Direction)
    requires IsCardinal(chosen)
    ensures var ds := Moves(CardinalDirections, chosen);
            forall i :: 0 <= i < |ds| ==>
              Entries(w, src, ds, chosen)[i].tenths == Weight(ds[i], chosen) && Entries(w, src, ds, chosen)[i].coord == Landing(w, src, ds[i])
    ensures TenthsSum(Entries(w, src, Moves(CardinalDirections, chosen), chosen)) == 10
  {
    TransitionsSpec(w, src, chosen);
  }

  const PositiveTerminalState: Cell := Cell(3, 0)
  const NegativeTerminalState: Cell := Cell(3, 1)
  const NonterminalReward: real := -0.04

  /** `getReward`: +1 on the positive terminal square, -1 on the negative one, -0.04 elsewhere. */
  function GetReward(s: Cell): (r: real)
    ensures r == 1.0 <==> s == PositiveTerminalState
    ensures r == -1.0 <==> s == NegativeTerminalState
    ensures r == NonterminalReward <==> s != PositiveTerminalState && s != NegativeTerminalState
  {
    var reward := NonterminalReward;
    if Equals(s, PositiveTerminalState) then 1.0
    else if Equals(s, NegativeTerminalState) then -1.0
    else reward
  }

}
