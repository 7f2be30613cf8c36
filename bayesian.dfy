/**
 * The pit-finding lab's bookkeeping: the Bayesian network's record of
 * which explored squares showed a breeze, which hidden squares border the
 * explored region (the frontier) and which do not, the counting and
 * validity tests over a square's four neighbours, the power set of the
 * valid frontier squares, and the refresh of all three tables from the
 * observed units.  Probabilities are left out.
 */
module Bayesian {
  import opened Grid
  import opened DistanceMetric
  import Coordinate
  import Paths

  /** `getAdjacentCoordinates`: the four cardinal neighbours. */
  function AdjacentCoordinates(c: Cell): set<Cell>
  {
    {Cell(c.x + 1, c.y), Cell(c.x - 1, c.y), Cell(c.x, c.y + 1), Cell(c.x, c.y - 1)}
  }

  /** A square has exactly four neighbours, the squares one step away horizontally or vertically. */
  lemma AdjacentCoordinatesSpec(c: Cell)
    ensures AdjacentCoordinates(c) == Coordinate.CardinalNeighbours(c)
    ensures |AdjacentCoordinates(c)| == 4
    ensures forall n :: n in AdjacentCoordinates(c) <==> Manhattan(c, n) == 1
  {
    Coordinate.CardinalNeighboursSpec(c);
  }

  /**
   * `isOnEdge` tests x == 1 and y == 1 twice each, so only the
   * first playable column and row count; the far edges are never detected.
   */
  function IsOnEdge(c: Cell): (r: bool)
    ensures r <==> c.x == 1 || c.y == 1
  {
    c.x == 1 || c.y == 1 || c.x == 1 || c.y == 1
  }

  function Pow2(k: nat): (r: nat)
    ensures r >= 1
  {
    if k == 0 then 1 else 2 * Pow2(k - 1)
  }

  /** The squares of `s` that `kb` records as showing a breeze. */
  function BreezyAmong(kb: map<Cell, bool>, s: set<Cell>): set<Cell>
  {
    set a | a in s && a in kb && kb[a]
  }

  lemma BreezyAmongAdd(kb: map<Cell, bool>, s: set<Cell>, a: Cell)
    ensures BreezyAmong(kb, s + {a}) == BreezyAmong(kb, s) + (if a in kb && kb[a] then {a} else {})
  {
  }

  /** No square of `adj` is known to be safe, and at least one is known to show a breeze. */
  predicate ValidNeighbourhood(kb: map<Cell, bool>, adj: set<Cell>)
  {
    (forall a :: a in adj && a in kb ==> kb[a]) && (exists a :: a in adj && a in kb && kb[a])
  }

  /** The squares among `s` whose neighbourhood passes `isValid`. */
  function ValidAmong(kb: map<Cell, bool>, s: set<Cell>): set<Cell>
  {
    set f | f in s && ValidNeighbourhood(kb, AdjacentCoordinates(f))
  }

  /** The subsets of `v`, listed with the empty set first. */
  ghost predicate PowerSetOf(ps: seq<set<Cell>>, v: set<Cell>)
  {
    |ps| == Pow2(|v|) && ps[0] == {}
    && (forall j :: 0 <= j < |ps| ==> ps[j] <= v)
    && (forall s :: s <= v ==> s in ps)
  }

  lemma PowerSetOfEmpty()
    ensures PowerSetOf([{}], {})
  {
    forall s: set<Cell> | s <= {}
      ensures s in [{}]
    {
      assert s == {};
    }
  }

  /** Every subset so far, and every subset so far with `f` added. */
  ghost predicate Doubled(ps: seq<set<Cell>>, ps': seq<set<Cell>>, f: Cell)
  {
    |ps'| == 2 * |ps| && (forall k :: 0 <= k < |ps| ==> ps'[k] == ps[k] && ps'[|ps| + k] == ps[k] + {f})
  }

  lemma DoubledBounded(ps: seq<set<Cell>>, ps': seq<set<Cell>>, v: set<Cell>, f: Cell)
    requires Doubled(ps, ps', f)
    requires forall j :: 0 <= j < |ps| ==> ps[j] <= v
    ensures forall j :: 0 <= j < |ps'| ==> ps'[j] <= v + {f}
  {
    forall j | 0 <= j < |ps'|
      ensures ps'[j] <= v + {f}
    {
      if j >= |ps| {
        assert ps'[j] == ps[j - |ps|] + {f};
      }
    }
  }

  lemma DoubledCovers(ps: seq<set<Cell>>, ps': seq<set<Cell>>, v: set<Cell>, f: Cell)
    requires Doubled(ps, ps', f)
    requires forall s :: s <= v ==> s in ps
    ensures forall s :: s <= v + {f} ==> s in ps'
  {
    forall s | s <= v + {f}
      ensures s in ps'
    {
      var t := s - {f};
      assert t <= v;
      var k :| 0 <= k < |ps| && ps[k] == t;
      if f in s {
        assert ps'[|ps| + k] == s;
      } else {
        assert ps'[k] == s;
      }
    }
  }

  /** One frontier square processed: doubling with a valid square gives the power set of the larger set. */
  lemma PowerSetStep(ps: seq<set<Cell>>, newSubsets: seq<set<Cell>>, v: set<Cell>, f: Cell, valid: bool)
    requires f !in v && PowerSetOf(ps, v)
    requires valid ==> |newSubsets| == |ps| && forall k :: 0 <= k < |ps| ==> newSubsets[k] == ps[k] + {f}
    requires !valid ==> newSubsets == []
    ensures PowerSetOf(ps + newSubsets, if valid then v + {f} else v)
  {
    var ps' := ps + newSubsets;
    if valid {
      assert Doubled(ps, ps', f);
      DoubledBounded(ps, ps', v, f);
      DoubledCovers(ps, ps', v, f);
      assert |v + {f}| == |v| + 1;
    } else {
      assert ps' == ps;
    }
  }

  lemma ValidAmongAdd(kb: map<Cell, bool>, done: set<Cell>, f: Cell)
    ensures ValidAmong(kb, done + {f}) ==
              if ValidNeighbourhood(kb, AdjacentCoordinates(f)) then ValidAmong(kb, done) + {f} else ValidAmong(kb, done)
  {
  }

  class PitfallBayesianNetwork {
    /** Explored squares: true for a breeze, false for a safe square. */
    var knownBreezeCoordinates: map<Cell, bool>
    var frontierPitCoordinates: set<Cell>
    var otherPitCoordinates: set<Cell>
    const pitProb: real

    constructor (p: real)
      ensures pitProb == p
      ensures knownBreezeCoordinates == map[] && frontierPitCoordinates == {} && otherPitCoordinates == {}
    {
      pitProb := p;
      knownBreezeCoordinates, frontierPitCoordinates, otherPitCoordinates := map[], {}, {};
    }

    /** `countAdjacentBreezes`: how many of the four neighbours are known breezes. */
    method CountAdjacentBreezes(coord: Cell) returns (breezeCount: nat)
      ensures breezeCount == |BreezyAmong(knownBreezeCoordinates, AdjacentCoordinates(coord))|
      ensures breezeCount <= 4
    {
      var kb := knownBreezeCoordinates;
      breezeCount := 0;
      var todo := AdjacentCoordinates(coord);
      ghost var counted: set<Cell> := {};
      while todo != {}
        invariant todo !! counted && todo + counted == AdjacentCoordinates(coord)
        invariant breezeCount == |BreezyAmong(kb, counted)|
        decreases |todo|
      {
        var adjCoord :| adjCoord in todo;
        BreezyAmongAdd(kb, counted, adjCoord);
        if adjCoord in kb && kb[adjCoord] {
          breezeCount := breezeCount + 1;
        }
        todo := todo - {adjCoord};
        counted := counted + {adjCoord};
      }
      AdjacentCoordinatesSpec(coord);
      Paths.SubsetCard(BreezyAmong(kb, counted), counted);
    }

    /** `isValid`: an early `false` at the first known safe square, otherwise whether a known breeze was seen. */
    method IsValid(adjacentCoordinates: set<Cell>) returns (r: bool)
      ensures r <==> ValidNeighbourhood(knownBreezeCoordinates, adjacentCoordinates)
    {
      var kb := knownBreezeCoordinates;
      var anyKnownBreeze := false;
      var todo := adjacentCoordinates;
      while todo != {}
        invariant todo <= adjacentCoordinates
        invariant forall a :: a in adjacentCoordinates - todo && a in kb ==> kb[a]
        invariant anyKnownBreeze <==> exists a :: a in adjacentCoordinates - todo && a in kb && kb[a]
        decreases |todo|
      {
        var adjCoord :| adjCoord in todo;
        if adjCoord in kb {
          if !kb[adjCoord] {
            return false;
          } else {
            anyKnownBreeze := true;
          }
        }
        todo := todo - {adjCoord};
      }
      return anyKnownBreeze;
    }

    /**
     * `getPowerSetOfFrontier`: starting from the empty set, each valid
     * frontier square doubles the list by adding itself to every subset so
     * far.  The result lists, empty set first, the 2^k subsets of the k
     * frontier squares whose neighbourhood is valid.
     */
    method GetPowerSetOfFrontier(coord: Cell) returns (powerSet: seq<set<Cell>>)
      ensures PowerSetOf(powerSet, ValidAmong(knownBreezeCoordinates, frontierPitCoordinates))
    {
      var kb := knownBreezeCoordinates;
      powerSet := [{}];
      var todo := frontierPitCoordinates;
      ghost var done: set<Cell> := {};
      assert ValidAmong(kb, done) == {};
      PowerSetOfEmpty();
      while todo != {}
        invariant todo !! done && todo + done == frontierPitCoordinates
        invariant PowerSetOf(powerSet, ValidAmong(kb, done))
        decreases |todo|
      {
        var frontierSquare :| frontierSquare in todo;
        var newSubsets := Doubling(powerSet, frontierSquare);
        ValidAmongAdd(kb, done, frontierSquare);
        PowerSetStep(powerSet, newSubsets, ValidAmong(kb, done), frontierSquare,
                     ValidNeighbourhood(kb, AdjacentCoordinates(frontierSquare)));
        powerSet := powerSet + newSubsets;
        todo := todo - {frontierSquare};
        done := done + {frontierSquare};
      }
      assert done == frontierPitCoordinates;
    }

    /** The inner loop of `getPowerSetOfFrontier`: every subset so far plus `f`, or nothing when `f` is not valid. */
    method Doubling(powerSet: seq<set<Cell>>, f: Cell) returns (newSubsets: seq<set<Cell>>)
      ensures ValidNeighbourhood(knownBreezeCoordinates, AdjacentCoordinates(f)) ==>
                |newSubsets| == |powerSet| && forall k :: 0 <= k < |powerSet| ==> newSubsets[k] == powerSet[k] + {f}
      ensures !ValidNeighbourhood(knownBreezeCoordinates, AdjacentCoordinates(f)) ==> newSubsets == []
    {
      ghost var valid := ValidNeighbourhood(knownBreezeCoordinates, AdjacentCoordinates(f));
      newSubsets := [];
      for j := 0 to |powerSet|
        invariant valid ==> |newSubsets| == j && forall k :: 0 <= k < j ==> newSubsets[k] == powerSet[k] + {f}
        invariant !valid ==> newSubsets == []
      {
        var newSubset := powerSet[j];
        var isValid := IsValid(AdjacentCoordinates(f));
        if isValid {
          newSubset := newSubset + {f};
          newSubsets := newSubsets + [newSubset];
        }
      }
    }

    /**
     * `getNextCoordinateToExplore`: nothing when the frontier is empty,
     * otherwise one of its squares.  `getNextCoordinateToExplore` takes the square of least
     * pit probability, breaking ties by a shuffle; the model leaves the
     * choice open.
     */
    method GetNextCoordinateToExplore() returns (toExplore: Option<Cell>)
      ensures toExplore.None? <==> frontierPitCoordinates == {}
      ensures toExplore.Some? ==> toExplore.value in frontierPitCoordinates
    {
      toExplore := None;
      if |frontierPitCoordinates| > 0 {
        var c :| c in frontierPitCoordinates;
        toExplore := Some(c);
      }
    }
  }

  /** The template tests of `PitfallBayesianNetwork`, all on the lower-cased name. */
  predicate IsHidden(u: UnitView)
  {
    ToLower(u.name) == "hiddensquare"
  }

  predicate IsBreeze(u: UnitView)
  {
    ToLower(u.name) == "breezesquare"
  }

  predicate IsSafe(u: UnitView)
  {
    ToLower(u.name) == "safesquare"
  }

  /** The four offsets `isFrontierCoordiante` tries, in order. */
  const Offsets: seq<(int, int)> := [(-1, 0), (1, 0), (0, -1), (0, 1)]

  /**
   * A square inside the playable border that holds no hidden square.  An
   * occupant id with no unit behind it (which a host snapshot never shows)
   * counts as not hidden.
   */
  predicate Uncovered(w: World, x: int, y: int)
  {
    1 <= x <= w.width - 2 && 1 <= y <= w.height - 2
    && (!IsUnitAt(w, Cell(x, y)) || w.occupant[Cell(x, y)] !in w.units || !IsHidden(w.units[w.occupant[Cell(x, y)]]))
  }

  /** Some neighbour, tried in the order of `Offsets`, is uncovered. */
  predicate IsFrontier(w: World, src: Cell)
  {
    Uncovered(w, src.x - 1, src.y) || Uncovered(w, src.x + 1, src.y)
    || Uncovered(w, src.x, src.y - 1) || Uncovered(w, src.x, src.y + 1)
  }

  /** The frontier test is a test on the four cardinal neighbours. */
  lemma IsFrontierSpec(w: World, src: Cell)
    ensures IsFrontier(w, src) <==> exists n :: n in AdjacentCoordinates(src) && Uncovered(w, n.x, n.y)
  {
    if IsFrontier(w, src) {
      if Uncovered(w, src.x - 1, src.y) {
        assert Cell(src.x - 1, src.y) in AdjacentCoordinates(src);
      } else if Uncovered(w, src.x + 1, src.y) {
        assert Cell(src.x + 1, src.y) in AdjacentCoordinates(src);
      } else if Uncovered(w, src.x, src.y - 1) {
        assert Cell(src.x, src.y - 1) in AdjacentCoordinates(src);
      } else {
        assert Cell(src.x, src.y + 1) in AdjacentCoordinates(src);
      }
    }
  }

  /** `isFrontierCoordiante`: the first of the four neighbours that is uncovered answers true. */
  method IsFrontierCoordinate(src: Cell, w: World) returns (r: bool)
    ensures r <==> IsFrontier(w, src)
  {
    for i := 0 to |Offsets|
      invariant forall j :: 0 <= j < i ==> !Uncovered(w, src.x + Offsets[j].0, src.y + Offsets[j].1)
    {
      var x := src.x + Offsets[i].0;
      var y := src.y + Offsets[i].1;
      if 1 <= x <= w.width - 2 && 1 <= y <= w.height - 2
         && (!IsUnitAt(w, Cell(x, y)) || w.occupant[Cell(x, y)] !in w.units || !IsHidden(w.units[w.occupant[Cell(x, y)]])) {
        return true;
      }
    }
    assert !Uncovered(w, src.x + Offsets[0].0, src.y + Offsets[0].1);
    assert !Uncovered(w, src.x + Offsets[1].0, src.y + Offsets[1].1);
    assert !Uncovered(w, src.x + Offsets[2].0, src.y + Offsets[2].1);
    assert !Uncovered(w, src.x + Offsets[3].0, src.y + Offsets[3].1);
    return false;
  }

  /** The hidden squares among the observed units. */
  function HiddenCoordinates(us: seq<UnitView>): set<Cell>
  {
    if |us| == 0 then {}
    else HiddenCoordinates(us[..|us| - 1]) + (if IsHidden(us[|us| - 1]) then {us[|us| - 1].pos} else {})
  }

  /** The explored squares among the observed units; a later unit on the same square wins. */
  function KnownBreezes(us: seq<UnitView>): map<Cell, bool>
  {
    if |us| == 0 then map[]
    else
      var u := us[|us| - 1];
      if IsBreeze(u) then KnownBreezes(us[..|us| - 1])[u.pos := true]
      else if IsSafe(u) then KnownBreezes(us[..|us| - 1])[u.pos := false]
      else KnownBreezes(us[..|us| - 1])
  }

  /** The hidden squares are the squares of the hidden units. */
  lemma {:induction false} HiddenCoordinatesSpec(us: seq<UnitView>)
    ensures forall c :: c in HiddenCoordinates(us) <==> exists i :: 0 <= i < |us| && IsHidden(us[i]) && us[i].pos == c
  {
    if |us| > 0 {
      var init := us[..|us| - 1];
      HiddenCoordinatesSpec(init);
      forall c
        ensures c in HiddenCoordinates(us) <==> exists i :: 0 <= i < |us| && IsHidden(us[i]) && us[i].pos == c
      {
        if c in HiddenCoordinates(init) {
          var i :| 0 <= i < |init| && IsHidden(init[i]) && init[i].pos == c;
          assert us[i] == init[i];
        }
        if i :| 0 <= i < |us| && IsHidden(us[i]) && us[i].pos == c {
          if i < |us| - 1 {
            assert init[i] == us[i];
          }
        }
      }
    }
  }

  /** Each explored square records breeze or safety according to the last unit observed on it. */
  lemma {:induction false} KnownBreezesSpec(us: seq<UnitView>, c: Cell)
    ensures c in KnownBreezes(us) <==> exists i :: 0 <= i < |us| && (IsBreeze(us[i]) || IsSafe(us[i])) && us[i].pos == c
    ensures c in KnownBreezes(us) ==> KnownBreezes(us)[c] ==> exists i :: 0 <= i < |us| && IsBreeze(us[i]) && us[i].pos == c
  {
    if |us| > 0 {
      var init := us[..|us| - 1];
      KnownBreezesSpec(init, c);
      forall i | 0 <= i < |init|
        ensures init[i] == us[i]
      {
      }
    }
  }

  function FrontierPart(w: World, h: set<Cell>): set<Cell>
  {
    set c | c in h && IsFrontier(w, c)
  }

  function OtherPart(w: World, h: set<Cell>): set<Cell>
  {
    set c | c in h && !IsFrontier(w, c)
  }

  /** The two parts split the hidden squares: they are disjoint and together they are all of them. */
  lemma PartsSplit(w: World, h: set<Cell>)
    ensures FrontierPart(w, h) !! OtherPart(w, h)
    ensures FrontierPart(w, h) + OtherPart(w, h) == h
  {
  }

  /**
   * The inner loop of `makeObservations`: every frontier square among the
   * `other` squares joins the frontier; the caller then removes the
   * frontier from `other`.
   */
  method SeparateFrontier(w: World, other: set<Cell>, frontier: set<Cell>) returns (frontier': set<Cell>)
    ensures frontier' == frontier + FrontierPart(w, other)
  {
    frontier' := frontier;
    var todo := other;
    ghost var seen: set<Cell> := {};
    while todo != {}
      invariant todo !! seen && todo + seen == other
      invariant frontier' == frontier + FrontierPart(w, seen)
      decreases |todo|
    {
      var unknownCoordinate :| unknownCoordinate in todo;
      FrontierPartAdd(w, seen, unknownCoordinate);
      var isFrontier := IsFrontierCoordinate(unknownCoordinate, w);
      if isFrontier {
        frontier' := frontier' + {unknownCoordinate};
      }
      todo := todo - {unknownCoordinate};
      seen := seen + {unknownCoordinate};
    }
  }

  lemma FrontierPartAdd(w: World, s: set<Cell>, c: Cell)
    ensures FrontierPart(w, s + {c}) == FrontierPart(w, s) + (if IsFrontier(w, c) then {c} else {})
  {
  }

  /**
   * `makeObservations`: clear the three tables, then walk the enemy units,
   * recording breezes and safe squares, collecting hidden squares, and
   * moving the hidden squares that border the explored region to the
   * frontier.  Afterwards the frontier and the other hidden squares split
   * the hidden squares by the frontier test.
   */
  method MakeObservations(net: PitfallBayesianNetwork, w: World, enemyUnits: seq<UnitView>)
    modifies net
    ensures net.knownBreezeCoordinates == KnownBreezes(enemyUnits)
    ensures net.frontierPitCoordinates == FrontierPart(w, HiddenCoordinates(enemyUnits))
    ensures net.otherPitCoordinates == OtherPart(w, HiddenCoordinates(enemyUnits))
  {
    net.knownBreezeCoordinates := map[];
    net.frontierPitCoordinates := {};
    net.otherPitCoordinates := {};
    for i := 0 to |enemyUnits|
      invariant net.knownBreezeCoordinates == KnownBreezes(enemyUnits[..i])
      invariant net.frontierPitCoordinates == FrontierPart(w, HiddenCoordinates(enemyUnits[..i]))
      invariant net.otherPitCoordinates == OtherPart(w, HiddenCoordinates(enemyUnits[..i]))
    {
      var enemyUnitView := enemyUnits[i];
      assert enemyUnits[..i + 1][..i] == enemyUnits[..i];
      ghost var h := HiddenCoordinates(enemyUnits[..i]);
      ghost var h' := HiddenCoordinates(enemyUnits[..i + 1]);
      var name := ToLower(enemyUnitView.name);
      if name == "breezesquare" {
        net.knownBreezeCoordinates := net.knownBreezeCoordinates[enemyUnitView.pos := true];
      } else if name == "safesquare" {
        net.knownBreezeCoordinates := net.knownBreezeCoordinates[enemyUnitView.pos := false];
      } else if name == "hiddensquare" {
        net.otherPitCoordinates := net.otherPitCoordinates + {enemyUnitView.pos};
      }
      ghost var otherBefore := net.otherPitCoordinates;
      assert h' == h + (if IsHidden(enemyUnitView) then {enemyUnitView.pos} else {});
      net.frontierPitCoordinates := SeparateFrontier(w, net.otherPitCoordinates, net.frontierPitCoordinates);
      net.otherPitCoordinates := net.otherPitCoordinates - net.frontierPitCoordinates;
      ObservationStep(w, h, h', otherBefore, enemyUnitView.pos, IsHidden(enemyUnitView));
    }
    assert enemyUnits[..|enemyUnits|] == enemyUnits;
  }

  /** Collecting one more square and separating again keeps the split by the frontier test. */
  lemma ObservationStep(w: World, h: set<Cell>, h': set<Cell>, otherBefore: set<Cell>, c: Cell, hidden: bool)
    requires h' == h + (if hidden then {c} else {})
    requires otherBefore == OtherPart(w, h) + (if hidden then {c} else {})
    ensures FrontierPart(w, h) + FrontierPart(w, otherBefore) == FrontierPart(w, h')
    ensures otherBefore - FrontierPart(w, h') == OtherPart(w, h')
  {
  }
}
