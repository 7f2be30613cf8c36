/**
 * The board features of the Tetris Q-learning agent.  The agent measures a
 * board by the holes under the first block of each column, the blocks over
 * the first gap of each column, the full rows, the column heights and the
 * contacts of blocks with other blocks, the walls and the floor; it feeds the
 * greyscale image of the board, the column heights and these counts to its
 * Q-network, and keeps per-placement counts for its exploration bonus.
 *
 * Boards are grids of occupancy flags indexed `[row][col]` with row 0 at the
 * top; a greyscale image is a grid of reals in which a square is occupied
 * when its value is not 0.
 */
module Tetris {

  /** A placement of the current piece; its geometry lives in the game engine, only its identity matters here. */
  datatype Mino = Mino(id: int)

  /** A board: `cells[row][col]` is true when the square is occupied. */
  datatype Board = Board(numRows: nat, numCols: nat, cells: seq<seq<bool>>)

  /** A matrix of reals stored by rows, as the greyscale image and the network input are. */
  datatype Matrix = Matrix(numRows: nat, numCols: nat, data: seq<seq<real>>)

  ghost predicate WellFormed(b: Board)
  {
    |b.cells| == b.numRows && forall r :: 0 <= r < |b.cells| ==> |b.cells[r]| == b.numCols
  }

  ghost predicate WellFormedImage(m: Matrix)
  {
    |m.data| == m.numRows && forall r :: 0 <= r < |m.data| ==> |m.data[r]| == m.numCols
  }

  /** Occupancy, false off the board. */
  predicate Occupied(b: Board, r: int, c: int)
  {
    0 <= r < |b.cells| && 0 <= c < |b.cells[r]| && b.cells[r][c]
  }

  function RowOccupancy(row: seq<real>): (r: seq<bool>)
    ensures |r| == |row| && forall c :: 0 <= c < |row| ==> r[c] == (row[c] != 0.0)
  {
    seq(|row|, c requires 0 <= c < |row| => row[c] != 0.0)
  }

  /** The board an image shows: a square is occupied when its value is not 0. */
  function OccupancyOf(m: Matrix): (b: Board)
    ensures b.numRows == m.numRows && b.numCols == m.numCols && |b.cells| == |m.data|
    ensures forall r :: 0 <= r < |m.data| ==> b.cells[r] == RowOccupancy(m.data[r])
  {
    Board(m.numRows, m.numCols, seq(|m.data|, r requires 0 <= r < |m.data| => RowOccupancy(m.data[r])))
  }

  // ---------------------------------------------------------------------
  // Per-column counts, scanning rows `r..` from the top down
  // ---------------------------------------------------------------------

  /** Empty squares of column `c` from row `r` down that lie under a block (`found`: one was seen above row `r`). */
  function HolesFrom(b: Board, c: int, r: nat, found: bool): nat
    decreases b.numRows - r
  {
    if r >= b.numRows then 0
    else if Occupied(b, r, c) then HolesFrom(b, c, r + 1, true)
    else (if found then 1 else 0) + HolesFrom(b, c, r + 1, found)
  }

  /** Occupied squares of column `c` from row `r` down that lie under a gap (`found`: one was seen above row `r`). */
  function BlockadesFrom(b: Board, c: int, r: nat, found: bool): nat
    decreases b.numRows - r
  {
    if r >= b.numRows then 0
    else if !Occupied(b, r, c) then BlockadesFrom(b, c, r + 1, true)
    else (if found then 1 else 0) + BlockadesFrom(b, c, r + 1, found)
  }

  /** The height of column `c` counted from the floor, judged from row `r` down: 0 when it has no block there. */
  function HeightFrom(b: Board, c: int, r: nat): nat
    decreases b.numRows - r
  {
    if r >= b.numRows then 0
    else if Occupied(b, r, c) then b.numRows - r
    else HeightFrom(b, c, r + 1)
  }

  /** Reference counts: empty and occupied squares of column `c` from row `r`, and the runs of each at its top. */
  function EmptiesFrom(b: Board, c: int, r: nat): nat
    decreases b.numRows - r
  {
    if r >= b.numRows then 0 else (if Occupied(b, r, c) then 0 else 1) + EmptiesFrom(b, c, r + 1)
  }

  function FilledFrom(b: Board, c: int, r: nat): nat
    decreases b.numRows - r
  {
    if r >= b.numRows then 0 else (if Occupied(b, r, c) then 1 else 0) + FilledFrom(b, c, r + 1)
  }

  function LeadingEmptiesFrom(b: Board, c: int, r: nat): nat
    decreases b.numRows - r
  {
    if r >= b.numRows || Occupied(b, r, c) then 0 else 1 + LeadingEmptiesFrom(b, c, r + 1)
  }

  function LeadingFilledFrom(b: Board, c: int, r: nat): nat
    decreases b.numRows - r
  {
    if r >= b.numRows || !Occupied(b, r, c) then 0 else 1 + LeadingFilledFrom(b, c, r + 1)
  }

  function ColumnHoles(b: Board, c: int): nat { HolesFrom(b, c, 0, false) }

  function ColumnBlockades(b: Board, c: int): nat { BlockadesFrom(b, c, 0, false) }

  function ColumnHeight(b: Board, c: int): nat { HeightFrom(b, c, 0) }

  /**
   * The scanned counts against the reference counts: below a block every
   * empty square is a hole, below a gap every block is a blockade, and the
   * height is what lies below the run of empty squares at the top.
   */
  lemma {:induction false} ColumnCounts(b: Board, c: int, r: nat)
    requires r <= b.numRows
    ensures EmptiesFrom(b, c, r) + FilledFrom(b, c, r) == b.numRows - r
    ensures HolesFrom(b, c, r, true) == EmptiesFrom(b, c, r)
    ensures HolesFrom(b, c, r, false) + LeadingEmptiesFrom(b, c, r) == EmptiesFrom(b, c, r)
    ensures BlockadesFrom(b, c, r, true) == FilledFrom(b, c, r)
    ensures BlockadesFrom(b, c, r, false) + LeadingFilledFrom(b, c, r) == FilledFrom(b, c, r)
    ensures HeightFrom(b, c, r) + LeadingEmptiesFrom(b, c, r) == b.numRows - r
    decreases b.numRows - r
  {
    if r < b.numRows {
      ColumnCounts(b, c, r + 1);
    }
  }

  /** A column's holes are its height less its blocks, and its height is at most the number of rows. */
  lemma HolesAreHeightLessBlocks(b: Board, c: int)
    ensures ColumnHoles(b, c) + FilledFrom(b, c, 0) == ColumnHeight(b, c)
    ensures ColumnHeight(b, c) <= b.numRows
  {
    ColumnCounts(b, c, 0);
  }

  /** A column with no block from row `r` down has height 0, and a column of blocks only has no empty square. */
  lemma {:induction false} UniformColumn(b: Board, c: int, r: nat)
    requires r <= b.numRows
    ensures (forall k :: r <= k < b.numRows ==> !Occupied(b, k, c)) ==> FilledFrom(b, c, r) == 0 && HeightFrom(b, c, r) == 0
    ensures (forall k :: r <= k < b.numRows ==> Occupied(b, k, c)) ==> EmptiesFrom(b, c, r) == 0 && LeadingFilledFrom(b, c, r) == FilledFrom(b, c, r)
    ensures HeightFrom(b, c, r) == 0 ==> forall k :: r <= k < b.numRows ==> !Occupied(b, k, c)
    decreases b.numRows - r
  {
    if r < b.numRows {
      UniformColumn(b, c, r + 1);
    }
  }

  /** A column's height is 0 exactly when it holds no block. */
  lemma ColumnHeightZero(b: Board, c: int)
    ensures ColumnHeight(b, c) == 0 <==> forall k :: 0 <= k < b.numRows ==> !Occupied(b, k, c)
  {
    UniformColumn(b, c, 0);
  }

  /** A full column has neither holes nor blockades; an empty one has neither either. */
  lemma UniformColumnCounts(b: Board, c: int)
    ensures (forall k :: 0 <= k < b.numRows ==> Occupied(b, k, c)) ==> ColumnHoles(b, c) == 0 && ColumnBlockades(b, c) == 0
    ensures (forall k :: 0 <= k < b.numRows ==> !Occupied(b, k, c)) ==> ColumnHoles(b, c) == 0 && ColumnBlockades(b, c) == 0
  {
    ColumnCounts(b, c, 0);
    UniformColumn(b, c, 0);
    HolesAreHeightLessBlocks(b, c);
  }

  // ---------------------------------------------------------------------
  // Board-wide counts, summing columns `c..`
  // ---------------------------------------------------------------------

  function HolesFromColumn(b: Board, c: nat): nat
    decreases b.numCols - c
  {
    if c >= b.numCols then 0 else ColumnHoles(b, c) + HolesFromColumn(b, c + 1)
  }

  function BlockadesFromColumn(b: Board, c: nat): nat
    decreases b.numCols - c
  {
    if c >= b.numCols then 0 else ColumnBlockades(b, c) + BlockadesFromColumn(b, c + 1)
  }

  function HeightsFromColumn(b: Board, c: nat): nat
    decreases b.numCols - c
  {
    if c >= b.numCols then 0 else ColumnHeight(b, c) + HeightsFromColumn(b, c + 1)
  }

  function Holes(b: Board): nat { HolesFromColumn(b, 0) }

  function Blockades(b: Board): nat { BlockadesFromColumn(b, 0) }

  function SumOfHeights(b: Board): nat { HeightsFromColumn(b, 0) }

  ghost predicate EmptyBoard(b: Board)
  {
    forall r, c :: 0 <= r < b.numRows && 0 <= c < b.numCols ==> !Occupied(b, r, c)
  }

  ghost predicate FullBoard(b: Board)
  {
    forall r, c :: 0 <= r < b.numRows && 0 <= c < b.numCols ==> Occupied(b, r, c)
  }

  lemma {:induction false} UniformColumnsFrom(b: Board, c: nat)
    requires EmptyBoard(b) || FullBoard(b)
    ensures HolesFromColumn(b, c) == 0 && BlockadesFromColumn(b, c) == 0
    decreases b.numCols - c
  {
    if c < b.numCols {
      UniformColumnCounts(b, c);
      UniformColumnsFrom(b, c + 1);
    }
  }

  /** The empty board and the full board have no holes and no blockades; the empty board has height 0. */
  lemma UniformBoards(b: Board)
    ensures EmptyBoard(b) || FullBoard(b) ==> Holes(b) == 0 && Blockades(b) == 0
    ensures EmptyBoard(b) ==> SumOfHeights(b) == 0
  {
    if EmptyBoard(b) || FullBoard(b) {
      UniformColumnsFrom(b, 0);
    }
    if EmptyBoard(b) {
      EmptyHeights(b, 0);
    }
  }

  lemma {:induction false} EmptyHeights(b: Board, c: nat)
    requires EmptyBoard(b)
    ensures HeightsFromColumn(b, c) == 0
    decreases b.numCols - c
  {
    if c < b.numCols {
      ColumnHeightZero(b, c);
      EmptyHeights(b, c + 1);
    }
  }

  // ---------------------------------------------------------------------
  // The counters, on boards and on greyscale images
  // ---------------------------------------------------------------------

  /** `calculateHoles(Board)`: column by column, the empty squares under the column's first block. */
  method CalculateHoles(b: Board) returns (holes: nat)
    requires WellFormed(b)
    ensures holes == Holes(b)
  {
    holes := 0;
    for col := 0 to b.numCols
      invariant holes + HolesFromColumn(b, col) == Holes(b)
    {
      var blockFound := false;
      for row := 0 to b.numRows
        invariant holes + HolesFrom(b, col, row, blockFound) + HolesFromColumn(b, col + 1) == Holes(b)
      {
        if b.cells[row][col] {
          blockFound := true;
        } else if blockFound {
          holes := holes + 1;
        }
      }
    }
  }

  /** `calculateHoles(Matrix)`: the same count on an image, a square being occupied when it is not 0. */
  method CalculateHolesOfImage(m: Matrix) returns (holes: nat)
    requires WellFormedImage(m)
    ensures holes == Holes(OccupancyOf(m))
  {
    ghost var b := OccupancyOf(m);
    holes := 0;
    for col := 0 to m.numCols
      invariant holes + HolesFromColumn(b, col) == Holes(b)
    {
      var blockFound := false;
      for row := 0 to m.numRows
        invariant holes + HolesFrom(b, col, row, blockFound) + HolesFromColumn(b, col + 1) == Holes(b)
      {
        if m.data[row][col] != 0.0 {
          blockFound := true;
        } else if blockFound {
          holes := holes + 1;
        }
      }
    }
  }

  /** `calculateBlockades(Board)`: column by column, the blocks under the column's first empty square. */
  method CalculateBlockades(b: Board) returns (blockades: nat)
    requires WellFormed(b)
    ensures blockades == Blockades(b)
  {
    blockades := 0;
    for col := 0 to b.numCols
      invariant blockades + BlockadesFromColumn(b, col) == Blockades(b)
    {
      var holeFound := false;
      for row := 0 to b.numRows
        invariant blockades + BlockadesFrom(b, col, row, holeFound) + BlockadesFromColumn(b, col + 1) == Blockades(b)
      {
        if !b.cells[row][col] {
          holeFound := true;
        } else if holeFound {
          blockades := blockades + 1;
        }
      }
    }
  }

  /** `calculateBlockades(Matrix)`: the same count on an image. */
  method CalculateBlockadesOfImage(m: Matrix) returns (blockades: nat)
    requires WellFormedImage(m)
    ensures blockades == Blockades(OccupancyOf(m))
  {
    ghost var b := OccupancyOf(m);
    blockades := 0;
    for col := 0 to m.numCols
      invariant blockades + BlockadesFromColumn(b, col) == Blockades(b)
    {
      var holeFound := false;
      for row := 0 to m.numRows
        invariant blockades + BlockadesFrom(b, col, row, holeFound) + BlockadesFromColumn(b, col + 1) == Blockades(b)
      {
        if m.data[row][col] == 0.0 {
          holeFound := true;
        } else if holeFound {
          blockades := blockades + 1;
        }
      }
    }
  }

  /** `calculateSumOfHeights`: each column adds the rows from its first block down to the floor. */
  method CalculateSumOfHeights(b: Board) returns (sumOfHeights: nat)
    requires WellFormed(b)
    ensures sumOfHeights == SumOfHeights(b)
  {
    sumOfHeights := 0;
    for col := 0 to b.numCols
      invariant sumOfHeights + HeightsFromColumn(b, col) == SumOfHeights(b)
    {
      ghost var before := sumOfHeights;
      var row := 0;
      while row < b.numRows
        invariant 0 <= row <= b.numRows
        invariant sumOfHeights == before && ColumnHeight(b, col) == HeightFrom(b, col, row)
      {
        if b.cells[row][col] {
          sumOfHeights := sumOfHeights + (b.numRows - row);
          break;
        }
        row := row + 1;
      }
      assert sumOfHeights == before + ColumnHeight(b, col);
    }
  }

  // ---------------------------------------------------------------------
  // Full rows
  // ---------------------------------------------------------------------

  predicate RowFull(b: Board, r: int)
  {
    forall c :: 0 <= c < b.numCols ==> Occupied(b, r, c)
  }

  /** The full rows from row `r` down, top first. */
  function FullRowsFrom(b: Board, r: nat): seq<nat>
    decreases b.numRows - r
  {
    if r >= b.numRows then [] else (if RowFull(b, r) then [r] else []) + FullRowsFrom(b, r + 1)
  }

  function FullRows(b: Board): seq<nat> { FullRowsFrom(b, 0) }

  /** The listed rows lie on the board from row `r` down and are strictly increasing. */
  lemma {:induction false} FullRowsFromIncreasing(b: Board, r: nat)
    ensures forall i :: 0 <= i < |FullRowsFrom(b, r)| ==> r <= FullRowsFrom(b, r)[i] < b.numRows
    ensures forall i, j :: 0 <= i < j < |FullRowsFrom(b, r)| ==> FullRowsFrom(b, r)[i] < FullRowsFrom(b, r)[j]
    decreases b.numRows - r
  {
    if r < b.numRows {
      FullRowsFromIncreasing(b, r + 1);
      var rest := FullRowsFrom(b, r + 1);
      var head: seq<nat> := if RowFull(b, r) then [r] else [];
      var f := head + rest;
      assert FullRowsFrom(b, r) == f;
      forall i | |head| <= i < |f|
        ensures f[i] == rest[i - |head|]
      {
      }
    }
  }

  /** A row is listed exactly when it is on the board from row `r` down and full; at most one per row is listed. */
  lemma {:induction false} FullRowsFromMembers(b: Board, r: nat)
    ensures forall k: nat :: k in FullRowsFrom(b, r) <==> r <= k < b.numRows && RowFull(b, k)
    ensures |FullRowsFrom(b, r)| <= if r <= b.numRows then b.numRows - r else 0
    decreases b.numRows - r
  {
    if r < b.numRows {
      FullRowsFromMembers(b, r + 1);
    }
  }

  /** The full-row list is strictly increasing and holds exactly the full rows, at most one per row. */
  lemma FullRowsSpec(b: Board)
    ensures forall i, j :: 0 <= i < j < |FullRows(b)| ==> FullRows(b)[i] < FullRows(b)[j]
    ensures forall k: nat :: k in FullRows(b) <==> k < b.numRows && RowFull(b, k)
    ensures |FullRows(b)| <= b.numRows
  {
    FullRowsFromIncreasing(b, 0);
    FullRowsFromMembers(b, 0);
  }

  /** `getFullLines`: the indices of the fully occupied rows, in increasing order. */
  method GetFullLines(b: Board) returns (fullLines: seq<nat>)
    requires WellFormed(b)
    ensures fullLines == FullRows(b)
  {
    fullLines := [];
    for row := 0 to b.numRows
      invariant fullLines + FullRowsFrom(b, row) == FullRows(b)
    {
      var isLineFull := true;
      var col := 0;
      while col < b.numCols
        invariant 0 <= col <= b.numCols
        invariant isLineFull && forall c :: 0 <= c < col ==> Occupied(b, row, c)
      {
        if !b.cells[row][col] {
          assert !Occupied(b, row, col);
          isLineFull := false;
          break;
        }
        col := col + 1;
      }
      assert isLineFull == RowFull(b, row);
      ghost var head: seq<nat> := if isLineFull then [row] else [];
      assert fullLines + FullRowsFrom(b, row) == (fullLines + head) + FullRowsFrom(b, row + 1);
      if isLineFull {
        fullLines := fullLines + [row];
      }
    }
    assert fullLines + [] == fullLines;
  }

  /** `calculateClears`: the number of full rows, which is at most the number of rows. */
  method CalculateClears(b: Board) returns (clears: nat)
    requires WellFormed(b)
    ensures clears == |FullRows(b)| && clears <= b.numRows
  {
    var fullLines := GetFullLines(b);
    FullRowsSpec(b);
    clears := |fullLines|;
  }

  /** `calculatePotentialLineCompletion`: counts the rows of an image with no 0 in them, the full rows of its board. */
  method CalculatePotentialLineCompletion(m: Matrix) returns (completeLines: nat)
    requires WellFormedImage(m)
    ensures completeLines == |FullRows(OccupancyOf(m))|
  {
    ghost var b := OccupancyOf(m);
    completeLines := 0;
    for row := 0 to m.numRows
      invariant completeLines + |FullRowsFrom(b, row)| == |FullRows(b)|
    {
      var complete := true;
      var col := 0;
      while col < m.numCols
        invariant 0 <= col <= m.numCols
        invariant complete && forall c :: 0 <= c < col ==> Occupied(b, row, c)
      {
        if m.data[row][col] == 0.0 {
          assert !Occupied(b, row, col);
          complete := false;
          break;
        }
        col := col + 1;
      }
      assert complete == RowFull(b, row);
      if complete {
        completeLines := completeLines + 1;
      }
    }
  }

  // ---------------------------------------------------------------------
  // Edge contacts
  // ---------------------------------------------------------------------

  /** Contacts of blocks with a neighbouring block (left, right or below), with a side wall, and with the floor. */
  datatype Contacts = Contacts(block: nat, wall: nat, floor: nat)

  function Plus(a: Contacts, b: Contacts): Contacts
  {
    Contacts(a.block + b.block, a.wall + b.wall, a.floor + b.floor)
  }

  function CellBlock(b: Board, r: int, c: int): nat
  {
    if !Occupied(b, r, c) then 0
    else (if c > 0 && Occupied(b, r, c - 1) then 1 else 0)
         + (if c < b.numCols - 1 && Occupied(b, r, c + 1) then 1 else 0)
         + (if r < b.numRows - 1 && Occupied(b, r + 1, c) then 1 else 0)
  }

  function CellWall(b: Board, r: int, c: int): nat
  {
    if !Occupied(b, r, c) then 0 else (if c == 0 then 1 else 0) + (if c == b.numCols - 1 then 1 else 0)
  }

  function CellFloor(b: Board, r: int, c: int): nat
  {
    if Occupied(b, r, c) && r == b.numRows - 1 then 1 else 0
  }

  /** The contacts of the square at row `r`, column `c`; none when it is empty. */
  function CellContacts(b: Board, r: int, c: int): Contacts
  {
    Contacts(CellBlock(b, r, c), CellWall(b, r, c), CellFloor(b, r, c))
  }

  function RowContactsFrom(b: Board, r: int, c: nat): Contacts
    decreases b.numCols - c
  {
    if c >= b.numCols then Contacts(0, 0, 0) else Plus(CellContacts(b, r, c), RowContactsFrom(b, r, c + 1))
  }

  function ContactsFrom(b: Board, r: nat): Contacts
    decreases b.numRows - r
  {
    if r >= b.numRows then Contacts(0, 0, 0) else Plus(RowContactsFrom(b, r, 0), ContactsFrom(b, r + 1))
  }

  function EdgeContacts(b: Board): Contacts { ContactsFrom(b, 0) }

  /** The edge score: 3 per block contact, 2.5 per wall contact, 5 per floor contact. */
  function EdgeScore(k: Contacts): real
  {
    3.0 * k.block as real + 2.5 * k.wall as real + 5.0 * k.floor as real
  }

  /**
   * One square of the scan of `calculateEdgeScores(Board)`: a block scores
   * 3 for a block to its left, to its right and below it, 2.5 for each side
   * wall it touches and 5 for the floor, and each contact is counted.
   */
  method AddCellContacts(b: Board, row: nat, col: nat, block: real, wall: real, floor: real, score: real)
    returns (block': real, wall': real, floor': real, score': real)
    requires WellFormed(b) && row < b.numRows && col < b.numCols
    ensures block' == block + CellContacts(b, row, col).block as real
    ensures wall' == wall + CellContacts(b, row, col).wall as real
    ensures floor' == floor + CellContacts(b, row, col).floor as real
    ensures score' == score + EdgeScore(CellContacts(b, row, col))
  {
    block', wall', floor', score' := block, wall, floor, score;
    if b.cells[row][col] {
      if col > 0 && b.cells[row][col - 1] {
        score' := score' + 3.0;
        block' := block' + 1.0;
      }
      if col < b.numCols - 1 && b.cells[row][col + 1] {
        score' := score' + 3.0;
        block' := block' + 1.0;
      }
      if row < b.numRows - 1 && b.cells[row + 1][col] {
        score' := score' + 3.0;
        block' := block' + 1.0;
      }
      if col == 0 {
        score' := score' + 2.5;
        wall' := wall' + 1.0;
      }
      if col == b.numCols - 1 {
        score' := score' + 2.5;
        wall' := wall' + 1.0;
      }
      if row == b.numRows - 1 {
        score' := score' + 5.0;
        floor' := floor' + 1.0;
      }
    }
  }

  /** One square of the scan of `calculateEdgeScores(Matrix)`, on an image. */
  method AddCellContactsOfImage(m: Matrix, row: nat, col: nat, block: real, wall: real, floor: real, score: real)
    returns (block': real, wall': real, floor': real, score': real)
    requires WellFormedImage(m) && row < m.numRows && col < m.numCols
    ensures block' == block + CellContacts(OccupancyOf(m), row, col).block as real
    ensures wall' == wall + CellContacts(OccupancyOf(m), row, col).wall as real
    ensures floor' == floor + CellContacts(OccupancyOf(m), row, col).floor as real
    ensures score' == score + EdgeScore(CellContacts(OccupancyOf(m), row, col))
  {
    block', wall', floor', score' := block, wall, floor, score;
    if m.data[row][col] != 0.0 {
      if col > 0 && m.data[row][col - 1] != 0.0 {
        score' := score' + 3.0;
        block' := block' + 1.0;
      }
      if col < m.numCols - 1 && m.data[row][col + 1] != 0.0 {
        score' := score' + 3.0;
        block' := block' + 1.0;
      }
      if row < m.numRows - 1 && m.data[row + 1][col] != 0.0 {
        score' := score' + 3.0;
        block' := block' + 1.0;
      }
      if col == 0 {
        score' := score' + 2.5;
        wall' := wall' + 1.0;
      }
      if col == m.numCols - 1 {
        score' := score' + 2.5;
        wall' := wall' + 1.0;
      }
      if row == m.numRows - 1 {
        score' := score' + 5.0;
        floor' := floor' + 1.0;
      }
    }
  }

  /** One row of the scan of `calculateEdgeScores(Board)`, left to right. */
  method AddRowContacts(b: Board, row: nat, block: real, wall: real, floor: real, score: real)
    returns (block': real, wall': real, floor': real, score': real)
    requires WellFormed(b) && row < b.numRows
    ensures block' == block + RowContactsFrom(b, row, 0).block as real
    ensures wall' == wall + RowContactsFrom(b, row, 0).wall as real
    ensures floor' == floor + RowContactsFrom(b, row, 0).floor as real
    ensures score' == score + EdgeScore(RowContactsFrom(b, row, 0))
  {
    block', wall', floor', score' := block, wall, floor, score;
    for col := 0 to b.numCols
      invariant block' + RowContactsFrom(b, row, col).block as real == block + RowContactsFrom(b, row, 0).block as real
      invariant wall' + RowContactsFrom(b, row, col).wall as real == wall + RowContactsFrom(b, row, 0).wall as real
      invariant floor' + RowContactsFrom(b, row, col).floor as real == floor + RowContactsFrom(b, row, 0).floor as real
      invariant score' + EdgeScore(RowContactsFrom(b, row, col)) == score + EdgeScore(RowContactsFrom(b, row, 0))
    {
      block', wall', floor', score' := AddCellContacts(b, row, col, block', wall', floor', score');
    }
  }

  /** One row of the scan of `calculateEdgeScores(Matrix)`, on an image. */
  method AddRowContactsOfImage(m: Matrix, row: nat, block: real, wall: real, floor: real, score: real)
    returns (block': real, wall': real, floor': real, score': real)
    requires WellFormedImage(m) && row < m.numRows
    ensures block' == block + RowContactsFrom(OccupancyOf(m), row, 0).block as real
    ensures wall' == wall + RowContactsFrom(OccupancyOf(m), row, 0).wall as real
    ensures floor' == floor + RowContactsFrom(OccupancyOf(m), row, 0).floor as real
    ensures score' == score + EdgeScore(RowContactsFrom(OccupancyOf(m), row, 0))
  {
    ghost var b := OccupancyOf(m);
    block', wall', floor', score' := block, wall, floor, score;
    for col := 0 to m.numCols
      invariant block' + RowContactsFrom(b, row, col).block as real == block + RowContactsFrom(b, row, 0).block as real
      invariant wall' + RowContactsFrom(b, row, col).wall as real == wall + RowContactsFrom(b, row, 0).wall as real
      invariant floor' + RowContactsFrom(b, row, col).floor as real == floor + RowContactsFrom(b, row, 0).floor as real
      invariant score' + EdgeScore(RowContactsFrom(b, row, col)) == score + EdgeScore(RowContactsFrom(b, row, 0))
    {
      block', wall', floor', score' := AddCellContactsOfImage(m, row, col, block', wall', floor', score');
    }
  }

  /** The scan of `calculateEdgeScores(Board)`, row by row: the contact counts and the edge score of the board. */
  method CountEdgeContacts(b: Board) returns (edgeTouchBlock: real, edgeTouchWall: real, edgeTouchFloor: real, score: real)
    requires WellFormed(b)
    ensures edgeTouchBlock == EdgeContacts(b).block as real
    ensures edgeTouchWall == EdgeContacts(b).wall as real
    ensures edgeTouchFloor == EdgeContacts(b).floor as real
    ensures score == EdgeScore(EdgeContacts(b))
  {
    score := 0.0;
    edgeTouchBlock, edgeTouchWall, edgeTouchFloor := 0.0, 0.0, 0.0;
    for row := 0 to b.numRows
      invariant edgeTouchBlock + ContactsFrom(b, row).block as real == EdgeContacts(b).block as real
      invariant edgeTouchWall + ContactsFrom(b, row).wall as real == EdgeContacts(b).wall as real
      invariant edgeTouchFloor + ContactsFrom(b, row).floor as real == EdgeContacts(b).floor as real
      invariant score + EdgeScore(ContactsFrom(b, row)) == EdgeScore(EdgeContacts(b))
    {
      edgeTouchBlock, edgeTouchWall, edgeTouchFloor, score :=
        AddRowContacts(b, row, edgeTouchBlock, edgeTouchWall, edgeTouchFloor, score);
    }
  }

  /** The scan of `calculateEdgeScores(Matrix)`: the same count on an image. */
  method CountEdgeContactsOfImage(m: Matrix) returns (edgeTouchBlock: real, edgeTouchWall: real, edgeTouchFloor: real, score: real)
    requires WellFormedImage(m)
    ensures edgeTouchBlock == EdgeContacts(OccupancyOf(m)).block as real
    ensures edgeTouchWall == EdgeContacts(OccupancyOf(m)).wall as real
    ensures edgeTouchFloor == EdgeContacts(OccupancyOf(m)).floor as real
    ensures score == EdgeScore(EdgeContacts(OccupancyOf(m)))
  {
    ghost var b := OccupancyOf(m);
    score := 0.0;
    edgeTouchBlock, edgeTouchWall, edgeTouchFloor := 0.0, 0.0, 0.0;
    for row := 0 to m.numRows
      invariant edgeTouchBlock + ContactsFrom(b, row).block as real == EdgeContacts(b).block as real
      invariant edgeTouchWall + ContactsFrom(b, row).wall as real == EdgeContacts(b).wall as real
      invariant edgeTouchFloor + ContactsFrom(b, row).floor as real == EdgeContacts(b).floor as real
      invariant score + EdgeScore(ContactsFrom(b, row)) == EdgeScore(EdgeContacts(b))
    {
      edgeTouchBlock, edgeTouchWall, edgeTouchFloor, score :=
        AddRowContactsOfImage(m, row, edgeTouchBlock, edgeTouchWall, edgeTouchFloor, score);
    }
  }

  /** Occupied squares of row `r` from column `c` on. */
  function RowFilledFrom(b: Board, r: int, c: nat): nat
    decreases b.numCols - c
  {
    if c >= b.numCols then 0 else (if Occupied(b, r, c) then 1 else 0) + RowFilledFrom(b, r, c + 1)
  }

  lemma {:induction false} RowWall(b: Board, r: int, c: nat)
    requires c <= b.numCols
    ensures RowContactsFrom(b, r, c).wall
            == (if c == 0 && c < b.numCols && Occupied(b, r, 0) then 1 else 0)
               + (if c < b.numCols && Occupied(b, r, b.numCols - 1) then 1 else 0)
    decreases b.numCols - c
  {
    if c < b.numCols {
      RowWall(b, r, c + 1);
      assert RowContactsFrom(b, r, c).wall == CellWall(b, r, c) + RowContactsFrom(b, r, c + 1).wall;
    }
  }

  lemma {:induction false} RowFloor(b: Board, r: int, c: nat)
    requires c <= b.numCols
    ensures RowContactsFrom(b, r, c).floor == if r == b.numRows - 1 then RowFilledFrom(b, r, c) else 0
    decreases b.numCols - c
  {
    if c < b.numCols {
      RowFloor(b, r, c + 1);
      assert RowContactsFrom(b, r, c).floor == CellFloor(b, r, c) + RowContactsFrom(b, r, c + 1).floor;
    }
  }

  lemma {:induction false} WallFloorFrom(b: Board, r: nat)
    requires r <= b.numRows
    ensures ContactsFrom(b, r).wall == if b.numCols > 0 then FilledFrom(b, 0, r) + FilledFrom(b, b.numCols - 1, r) else 0
    ensures ContactsFrom(b, r).floor == if r < b.numRows then RowFilledFrom(b, b.numRows - 1, 0) else 0
    decreases b.numRows - r
  {
    if r < b.numRows {
      RowWall(b, r, 0);
      RowFloor(b, r, 0);
      WallFloorFrom(b, r + 1);
    }
  }

  /**
   * Wall contacts are the blocks of the leftmost column plus those of the
   * rightmost column (one column counting twice), and floor contacts are
   * the blocks of the bottom row.
   */
  lemma WallAndFloorContacts(b: Board)
    ensures EdgeContacts(b).wall == if b.numCols > 0 then FilledFrom(b, 0, 0) + FilledFrom(b, b.numCols - 1, 0) else 0
    ensures EdgeContacts(b).floor == if b.numRows > 0 then RowFilledFrom(b, b.numRows - 1, 0) else 0
  {
    WallFloorFrom(b, 0);
  }

  // ---------------------------------------------------------------------
  // Placement counts
  // ---------------------------------------------------------------------

  function GetOrDefault<K, V>(m: map<K, V>, k: K, d: V): V
  {
    if k in m then m[k] else d
  }

  /** How often `a` occurs in `h`. */
  function Occurrences(h: seq<Mino>, a: Mino): nat
  {
    if |h| == 0 then 0 else Occurrences(h[..|h| - 1], a) + (if h[|h| - 1] == a then 1 else 0)
  }

  /** The count table holds, for each placement taken, how often it was taken, and nothing else. */
  ghost predicate CountsMatch(counts: map<Mino, int>, h: seq<Mino>)
  {
    (forall a :: a in counts <==> a in h) && (forall a :: a in counts ==> counts[a] == Occurrences(h, a))
  }

  /** The sum of the counts of the listed placements. */
  function SumCounts(keys: seq<Mino>, counts: map<Mino, int>): int
  {
    if |keys| == 0 then 0 else SumCounts(keys[..|keys| - 1], counts) + GetOrDefault(counts, keys[|keys| - 1], 0)
  }

  function SumOccurrences(keys: seq<Mino>, h: seq<Mino>): nat
  {
    if |keys| == 0 then 0 else SumOccurrences(keys[..|keys| - 1], h) + Occurrences(h, keys[|keys| - 1])
  }

  lemma {:induction false} OccurrencesAbsent(h: seq<Mino>, a: Mino)
    requires a !in h
    ensures Occurrences(h, a) == 0
  {
    if |h| > 0 {
      OccurrencesAbsent(h[..|h| - 1], a);
    }
  }

  lemma OccurrencesSnoc(h: seq<Mino>, x: Mino, a: Mino)
    ensures Occurrences(h + [x], a) == Occurrences(h, a) + (if x == a then 1 else 0)
  {
    assert (h + [x])[..|h|] == h;
  }

  /** Counting one more placement of `x` keeps the table in step with the history. */
  lemma CountsStep(counts: map<Mino, int>, h: seq<Mino>, x: Mino)
    requires CountsMatch(counts, h)
    ensures CountsMatch(counts[x := GetOrDefault(counts, x, 0) + 1], h + [x])
  {
    var counts' := counts[x := GetOrDefault(counts, x, 0) + 1];
    if x !in counts {
      OccurrencesAbsent(h, x);
    }
    forall a | a in counts'
      ensures counts'[a] == Occurrences(h + [x], a)
    {
      OccurrencesSnoc(h, x, a);
    }
  }

  lemma {:induction false} SumOccurrencesSnoc(keys: seq<Mino>, h: seq<Mino>, x: Mino)
    ensures SumOccurrences(keys, h + [x]) == SumOccurrences(keys, h) + Occurrences(keys, x)
  {
    if |keys| > 0 {
      SumOccurrencesSnoc(keys[..|keys| - 1], h, x);
      OccurrencesSnoc(h, x, keys[|keys| - 1]);
    }
  }

  ghost predicate Distinct(keys: seq<Mino>)
  {
    forall i, j :: 0 <= i < j < |keys| ==> keys[i] != keys[j]
  }

  lemma {:induction false} OccurrencesDistinct(keys: seq<Mino>, x: Mino)
    requires Distinct(keys) && x in keys
    ensures Occurrences(keys, x) == 1
  {
    var init := keys[..|keys| - 1];
    if keys[|keys| - 1] == x {
      forall i | 0 <= i < |init|
        ensures init[i] != x
      {
        assert init[i] == keys[i];
      }
      OccurrencesAbsent(init, x);
    } else {
      assert x in init by {
        var i :| 0 <= i < |keys| && keys[i] == x;
        assert init[i] == x;
      }
      OccurrencesDistinct(init, x);
    }
  }

  lemma {:induction false} SumOccurrencesIsLength(keys: seq<Mino>, h: seq<Mino>)
    requires Distinct(keys) && forall i :: 0 <= i < |h| ==> h[i] in keys
    ensures SumOccurrences(keys, h) == |h|
  {
    if |h| == 0 {
      SumOccurrencesEmpty(keys);
    } else {
      var init := h[..|h| - 1];
      assert h == init + [h[|h| - 1]];
      SumOccurrencesIsLength(keys, init);
      SumOccurrencesSnoc(keys, init, h[|h| - 1]);
      OccurrencesDistinct(keys, h[|h| - 1]);
    }
  }

  lemma {:induction false} SumOccurrencesEmpty(keys: seq<Mino>)
    ensures SumOccurrences(keys, []) == 0
  {
    if |keys| > 0 {
      SumOccurrencesEmpty(keys[..|keys| - 1]);
    }
  }

  lemma {:induction false} SumCountsIsSumOccurrences(keys: seq<Mino>, counts: map<Mino, int>, h: seq<Mino>)
    requires CountsMatch(counts, h)
    ensures SumCounts(keys, counts) == SumOccurrences(keys, h)
  {
    if |keys| > 0 {
      var k := keys[|keys| - 1];
      SumCountsIsSumOccurrences(keys[..|keys| - 1], counts, h);
      if k !in counts {
        OccurrencesAbsent(h, k);
      }
    }
  }

  /**
   * For any listing of the placements in the count table, each once, the
   * counts add up to the number of placements taken.
   */
  lemma TotalIsSumOfCounts(counts: map<Mino, int>, h: seq<Mino>, keys: seq<Mino>)
    requires CountsMatch(counts, h)
    requires Distinct(keys) && forall a :: a in counts ==> a in keys
    ensures SumCounts(keys, counts) == |h|
  {
    SumCountsIsSumOccurrences(keys, counts, h);
    SumOccurrencesIsLength(keys, h);
  }

  // ---------------------------------------------------------------------
  // The network input
  // ---------------------------------------------------------------------

  /** The image's squares row after row. */
  function Flatten(rows: seq<seq<real>>): seq<real>
  {
    if |rows| == 0 then [] else rows[0] + Flatten(rows[1..])
  }

  lemma {:induction false} FlattenLength(rows: seq<seq<real>>, cols: nat)
    requires forall i :: 0 <= i < |rows| ==> |rows[i]| == cols
    ensures |Flatten(rows)| == |rows| * cols
  {
    if |rows| > 0 {
      FlattenLength(rows[1..], cols);
      assert |rows| * cols == cols + (|rows| - 1) * cols;
    }
  }

  /** The column heights from column `c` on. */
  function HeightFeatures(b: Board, c: nat): (r: seq<real>)
    ensures |r| == if c < b.numCols then b.numCols - c else 0
    decreases b.numCols - c
  {
    if c >= b.numCols then [] else [ColumnHeight(b, c) as real] + HeightFeatures(b, c + 1)
  }

  /**
   * The feature row fed to the network for an image: the squares, one height
   * per column, then the full rows, holes and blockades, and three edge
   * features that are always 0.
   */
  ghost function QFeatures(m: Matrix): seq<real>
  {
    var b := OccupancyOf(m);
    Flatten(m.data) + HeightFeatures(b, 0)
    + [|FullRows(b)| as real, Holes(b) as real, Blockades(b) as real, 0.0, 0.0, 0.0]
  }

  /** The row has one entry per square, one per column, and six more, as the network's input layer expects. */
  lemma QFeaturesLength(m: Matrix)
    requires WellFormedImage(m)
    ensures |QFeatures(m)| == m.numRows * m.numCols + m.numCols + 6
  {
    FlattenLength(m.data, m.numCols);
  }

  /**
   * The agent's own state: the contact counts of the last edge scoring, the
   * image-named contact fields, and the per-placement reward and count tables
   * with the total of placements taken.
   */
  // ---------------------------------------------------------------------
  // The reward of a board
  // ---------------------------------------------------------------------

  /** The weights of `calculateReward(Board)`. */
  const WeightHeight: real := -0.03
  const WeightLines: real := 8.0
  const WeightHoles: real := -7.5
  const WeightBlockades: real := -3.5
  const WeightETB: real := 3.0
  const WeightETW: real := 2.5
  const WeightETF: real := 5.0

  /**
   * The reward `calculateReward(Board)` computes: the hole and blockade
   * terms are subtracted, and their weights are negative.
   */
  function Reward(b: Board): real
  {
    WeightHeight * SumOfHeights(b) as real - WeightHoles * Holes(b) as real - WeightBlockades * Blockades(b) as real
    + WeightLines * |FullRows(b)| as real
    + WeightETB * EdgeContacts(b).block as real + WeightETW * EdgeContacts(b).wall as real + WeightETF * EdgeContacts(b).floor as real
  }

  /**
   * The contact terms of the reward are the edge score `calculateEdgeScores`
   * returns, and, because the negative weights are subtracted, every hole
   * and every blockade adds to the reward: 7.5 and 3.5 each.
   */
  lemma RewardTerms(b: Board)
    ensures Reward(b) == -0.03 * SumOfHeights(b) as real + 7.5 * Holes(b) as real + 3.5 * Blockades(b) as real
                         + 8.0 * |FullRows(b)| as real + EdgeScore(EdgeContacts(b))
  {
  }

  /** Of two boards that differ only in their holes, the one with more holes gets the larger reward. */
  lemma RewardGrowsWithHoles(b1: Board, b2: Board)
    requires SumOfHeights(b1) == SumOfHeights(b2) && Blockades(b1) == Blockades(b2)
    requires |FullRows(b1)| == |FullRows(b2)| && EdgeContacts(b1) == EdgeContacts(b2)
    requires Holes(b1) < Holes(b2)
    ensures Reward(b1) < Reward(b2)
  {
  }

  /** An empty board with at least one column has no full row and no contact. */
  lemma {:induction false} EmptyBoardFeatures(b: Board, r: nat)
    requires EmptyBoard(b) && b.numCols > 0
    ensures FullRowsFrom(b, r) == [] && ContactsFrom(b, r) == Contacts(0, 0, 0)
    decreases b.numRows - r
  {
    if r < b.numRows {
      assert !Occupied(b, r, 0);
      EmptyRowContacts(b, r, 0);
      EmptyBoardFeatures(b, r + 1);
    }
  }

  lemma {:induction false} EmptyRowContacts(b: Board, r: nat, c: nat)
    requires EmptyBoard(b) && r < b.numRows
    ensures RowContactsFrom(b, r, c) == Contacts(0, 0, 0)
    decreases b.numCols - c
  {
    if c < b.numCols {
      assert !Occupied(b, r, c);
      EmptyRowContacts(b, r, c + 1);
    }
  }

  /** The empty board is worth nothing. */
  lemma RewardOfEmptyBoard(b: Board)
    requires EmptyBoard(b) && b.numCols > 0
    ensures Reward(b) == 0.0
  {
    UniformBoards(b);
    EmptyBoardFeatures(b, 0);
  }

  class TetrisQAgent {
    var edgeTouchBlock: real
    var edgeTouchWall: real
    var edgeTouchFloor: real
    var edgeTouchBlockM: real
    var edgeTouchWallM: real
    var edgeTouchFloorM: real
    var minoToReward: map<Mino, real>
    var minoToCount: map<Mino, int>
    var totalMinoCount: int
    /** The placements taken, oldest first. */
    ghost var history: seq<Mino>

    /**
     * No method writes the image-named contact fields, so they keep their
     * initial 0; the count table and the total follow the placements taken.
     */
    ghost predicate Valid()
      reads this
    {
      edgeTouchBlockM == 0.0 && edgeTouchWallM == 0.0 && edgeTouchFloorM == 0.0
      && totalMinoCount == |history| && CountsMatch(minoToCount, history)
    }

    constructor ()
      ensures Valid() && history == [] && minoToReward == map[]
    {
      edgeTouchBlock, edgeTouchWall, edgeTouchFloor := 0.0, 0.0, 0.0;
      edgeTouchBlockM, edgeTouchWallM, edgeTouchFloorM := 0.0, 0.0, 0.0;
      minoToReward, minoToCount, totalMinoCount := map[], map[], 0;
      history := [];
    }

    /**
     * `calculateEdgeScores(Board)`: recounts the three kinds of contact into
     * the board fields and returns the edge score.
     */
    method CalculateEdgeScores(b: Board) returns (score: real)
      requires WellFormed(b)
      modifies this
      ensures edgeTouchBlock == EdgeContacts(b).block as real
      ensures edgeTouchWall == EdgeContacts(b).wall as real
      ensures edgeTouchFloor == EdgeContacts(b).floor as real
      ensures score == EdgeScore(EdgeContacts(b))
      ensures edgeTouchBlockM == old(edgeTouchBlockM) && edgeTouchWallM == old(edgeTouchWallM) && edgeTouchFloorM == old(edgeTouchFloorM)
      ensures minoToReward == old(minoToReward) && minoToCount == old(minoToCount)
      ensures totalMinoCount == old(totalMinoCount) && history == old(history)
    {
      edgeTouchBlock, edgeTouchWall, edgeTouchFloor, score := CountEdgeContacts(b);
    }

    /**
     * `calculateEdgeScores(Matrix)`: the same recount on an image.  It writes
     * the board fields, not the image-named ones, which stay as they were.
     */
    method CalculateEdgeScoresOfImage(m: Matrix) returns (score: real)
      requires WellFormedImage(m)
      modifies this
      ensures edgeTouchBlock == EdgeContacts(OccupancyOf(m)).block as real
      ensures edgeTouchWall == EdgeContacts(OccupancyOf(m)).wall as real
      ensures edgeTouchFloor == EdgeContacts(OccupancyOf(m)).floor as real
      ensures score == EdgeScore(EdgeContacts(OccupancyOf(m)))
      ensures edgeTouchBlockM == old(edgeTouchBlockM) && edgeTouchWallM == old(edgeTouchWallM) && edgeTouchFloorM == old(edgeTouchFloorM)
      ensures minoToReward == old(minoToReward) && minoToCount == old(minoToCount)
      ensures totalMinoCount == old(totalMinoCount) && history == old(history)
    {
      edgeTouchBlock, edgeTouchWall, edgeTouchFloor, score := CountEdgeContactsOfImage(m);
    }

    /**
     * `getQFunctionInput`: builds the one-row network input for the image of
     * the board with the candidate placement, in the layout `QFeatures`
     * describes; the three edge features are the image-named fields, which
     * are still 0.
     */
    method GetQFunctionInput(image: Matrix) returns (input: Matrix)
      requires Valid() && WellFormedImage(image)
      modifies this
      ensures Valid()
      ensures input == Matrix(1, |QFeatures(image)|, [QFeatures(image)])
      ensures input.numCols == image.numRows * image.numCols + image.numCols + 6
      ensures edgeTouchBlock == EdgeContacts(OccupancyOf(image)).block as real
      ensures edgeTouchWall == EdgeContacts(OccupancyOf(image)).wall as real
      ensures edgeTouchFloor == EdgeContacts(OccupancyOf(image)).floor as real
      ensures minoToReward == old(minoToReward) && minoToCount == old(minoToCount)
      ensures totalMinoCount == old(totalMinoCount) && history == old(history)
    {
      ghost var b := OccupancyOf(image);
      var flattenedImage := Flatten(image.data);
      var features: seq<real> := [];
      for i := 0 to |flattenedImage|
        invariant features == flattenedImage[..i]
      {
        features := features + [flattenedImage[i]];
      }
      assert features == flattenedImage;
      for col := 0 to image.numCols
        invariant features + HeightFeatures(b, col) == flattenedImage + HeightFeatures(b, 0)
      {
        var colHeight := 0.0;
        var row := 0;
        while row < image.numRows
          invariant 0 <= row <= image.numRows
          invariant colHeight == 0.0 && ColumnHeight(b, col) == HeightFrom(b, col, row)
        {
          if image.data[row][col] != 0.0 {
            colHeight := (image.numRows - row) as real;
            break;
          }
          row := row + 1;
        }
        assert colHeight == ColumnHeight(b, col) as real;
        assert HeightFeatures(b, col) == [colHeight] + HeightFeatures(b, col + 1);
        features := features + [colHeight];
      }
      assert features == flattenedImage + HeightFeatures(b, 0);
      var lines := CalculatePotentialLineCompletion(image);
      var holes := CalculateHolesOfImage(image);
      var blockades := CalculateBlockadesOfImage(image);
      var counts := [lines as real, holes as real, blockades as real];
      features := features + counts;
      var _ := CalculateEdgeScoresOfImage(image);
      features := features + [edgeTouchBlockM, edgeTouchWallM, edgeTouchFloorM];
      assert counts + [0.0, 0.0, 0.0] == [lines as real, holes as real, blockades as real, 0.0, 0.0, 0.0];
      assert features == (flattenedImage + HeightFeatures(b, 0)) + (counts + [0.0, 0.0, 0.0]);
      QFeaturesLength(image);
      input := Matrix(1, |features|, [features]);
    }

    /**
     * `calculateReward(Board)`: the weighted sum of the board's features.  It
     * recounts the three board contact fields through `calculateEdgeScores`
     * and reads them back; nothing else changes.
     */
    method CalculateReward(b: Board) returns (reward: real)
      requires WellFormed(b)
      modifies this
      ensures reward == Reward(b)
      ensures edgeTouchBlock == EdgeContacts(b).block as real
      ensures edgeTouchWall == EdgeContacts(b).wall as real
      ensures edgeTouchFloor == EdgeContacts(b).floor as real
      ensures edgeTouchBlockM == old(edgeTouchBlockM) && edgeTouchWallM == old(edgeTouchWallM) && edgeTouchFloorM == old(edgeTouchFloorM)
      ensures minoToReward == old(minoToReward) && minoToCount == old(minoToCount)
      ensures totalMinoCount == old(totalMinoCount) && history == old(history)
    {
      var aggregateHeight := CalculateSumOfHeights(b);
      var completeLines := CalculateClears(b);
      var holes := CalculateHoles(b);
      var blockades := CalculateBlockades(b);
      var _ := CalculateEdgeScores(b);
      reward := WeightHeight * aggregateHeight as real - WeightHoles * holes as real - WeightBlockades * blockades as real
        + WeightLines * completeLines as real + WeightETB * edgeTouchBlock + WeightETW * edgeTouchWall + WeightETF * edgeTouchFloor;
    }

    /**
     * `updateActionRewardAndCount`: adds the reward of the board after the
     * placement, `calculateReward(placed)`, to the placement's running total,
     * and counts the placement once more, in its own entry and in the total.
     * `placed` is the copy of the game's board with the piece added by
     * `Board.addMino`, which is not part of this model.  The reward leaves
     * the placed board's contact counts in the three board fields.
     */
    method UpdateActionRewardAndCount(action: Mino, placed: Board)
      requires Valid() && WellFormed(placed)
      modifies this
      ensures Valid()
      ensures minoToReward == old(minoToReward)[action := GetOrDefault(old(minoToReward), action, 0.0) + Reward(placed)]
      ensures minoToCount == old(minoToCount)[action := GetOrDefault(old(minoToCount), action, 0) + 1]
      ensures totalMinoCount == old(totalMinoCount) + 1
      ensures history == old(history) + [action]
      ensures edgeTouchBlock == EdgeContacts(placed).block as real
      ensures edgeTouchWall == EdgeContacts(placed).wall as real
      ensures edgeTouchFloor == EdgeContacts(placed).floor as real
    {
      var rewardAfterAction := CalculateReward(placed);
      var totalReward := GetOrDefault(minoToReward, action, 0.0) + rewardAfterAction;
      minoToReward := minoToReward[action := totalReward];
      var actionCount := GetOrDefault(minoToCount, action, 0) + 1;
      CountsStep(minoToCount, history, action);
      minoToCount := minoToCount[action := actionCount];
      totalMinoCount := totalMinoCount + 1;
      history := history + [action];
    }
  }
}
