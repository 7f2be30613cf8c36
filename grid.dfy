/**
 * Values shared by every agent: map squares, the eight compass directions of
 * the Sepia engine, and a read-only snapshot of the world an agent observes
 * on one tick.
 */
module Grid {

  datatype Option<T> = None | Some(value: T)

  /** A map square: `Vertex` in the planners, `Coordinate` in the MDP and pit labs. */
  datatype Cell = Cell(x: int, y: int)

  /** Sepia's `Direction`.  The y axis grows downwards, so NORTH is (0, -1). */
  datatype Direction = North | NorthEast | East | SouthEast | South | SouthWest | West | NorthWest

  function XComponent(d: Direction): int
  {
    match d
    case North => 0
    case NorthEast => 1
    case East => 1
    case SouthEast => 1
    case South => 0
    case SouthWest => -1
    case West => -1
    case NorthWest => -1
  }

  function YComponent(d: Direction): int
  {
    match d
    case North => -1
    case NorthEast => -1
    case East => 0
    case SouthEast => 1
    case South => 1
    case SouthWest => 1
    case West => 0
    case NorthWest => -1
  }

  /** The square one step from `c` in direction `d`. */
  function Shift(c: Cell, d: Direction): Cell
  {
    Cell(c.x + XComponent(d), c.y + YComponent(d))
  }

  function Abs(n: int): nat
  {
    if n < 0 then -n else n
  }

  function Max(a: int, b: int): int
  {
    if a < b then b else a
  }

  /** A unit as the host reports it: where it stands, its template name and its attack range. */
  datatype UnitView = UnitView(pos: Cell, name: string, range: int)

  /**
   * The observable state: map extent, resource squares, the live units by
   * id, and which unit id stands on each occupied square.
   */
  datatype World = World(width: int, height: int, resources: set<Cell>,
                         units: map<int, UnitView>, occupant: map<Cell, int>)

  predicate InBounds(w: World, c: Cell)
  {
    0 <= c.x < w.width && 0 <= c.y < w.height
  }

  predicate IsResourceAt(w: World, c: Cell)
  {
    c in w.resources
  }

  predicate IsUnitAt(w: World, c: Cell)
  {
    c in w.occupant
  }

  /** The two unit tables describe the same placement: every live unit stands where the occupancy table says. */
  predicate Consistent(w: World)
  {
    (forall id :: id in w.units ==> w.units[id].pos in w.occupant && w.occupant[w.units[id].pos] == id) &&
    (forall c :: c in w.occupant ==> w.occupant[c] in w.units && w.units[w.occupant[c]].pos == c)
  }

  /** `atTownHall`, which every planning agent defines alike: the unit on `v` has a template named exactly "TownHall". */
  predicate AtTownHall(w: World, v: Cell)
    requires Consistent(w) && IsUnitAt(w, v)
  {
    w.units[w.occupant[v]].name == "TownHall"
  }

  /** Every square of the map. */
  function BoardCells(w: World): set<Cell>
  {
    set x, y | 0 <= x < w.width && 0 <= y < w.height :: Cell(x, y)
  }

  lemma BoardCellsAreInBounds(w: World, c: Cell)
    ensures c in BoardCells(w) <==> InBounds(w, c)
  {
    if InBounds(w, c) {
      assert c == Cell(c.x, c.y);
    }
  }

  /** ASCII lower-casing of one character. */
  function LowerChar(ch: char): char
  {
    if 'A' <= ch <= 'Z' then (ch as int + 32) as char else ch
  }

  /** `String.toLowerCase` restricted to the ASCII letters the map templates use. */
  function ToLower(s: string): (r: string)
    ensures |r| == |s|
    ensures forall i :: 0 <= i < |s| ==> r[i] == LowerChar(s[i])
  {
    if |s| == 0 then "" else [LowerChar(s[0])] + ToLower(s[1..])
  }
}
