/** The height map of 2022 day 12: a grid of one-letter cells with a start `S`
    and a summit `E`, and a current position that moves one cell at a time. */
module HeightMaps {
  import opened Text

  datatype Direction = Up | Down | Left | Right

  /** The outcome of `mv`: `Ok`, `Err` at the border, or a panic of the
      arithmetic or indexing inside it. */
  datatype MoveResult = Moved | Blocked | Panicked

  /** Every character of a line as a one-letter string. */
  function Cells(line: string): (row: seq<string>)
    ensures |row| == |line| && forall k :: 0 <= k < |line| ==> row[k] == [line[k]]
  {
    seq(|line|, k requires 0 <= k < |line| => [line[k]])
  }

  /** The grid `HeightMap::from` builds: one row per line. */
  function Grid(input: string): (data: seq<seq<string>>)
    ensures |data| == |Lines(input)| && forall i :: 0 <= i < |data| ==> data[i] == Cells(Lines(input)[i])
  {
    var lines := Lines(input);
    seq(|lines|, i requires 0 <= i < |lines| => Cells(lines[i]))
  }

  /** Searching a row of one-letter cells finds the first occurrence of the
      letter in the line. */
  lemma FirstInCells(line: string, c: char)
    ensures FirstInRow(Cells(line), [c], 0) == if c in line then Some(IndexOf(line, c)) else None
  {
    if c in line {
      assert Cells(line)[IndexOf(line, c)] == [c];
    }
  }

  /** Cell `(i, j)` comes before cell `(k, l)` in row-major order. */
  predicate Earlier(i: nat, j: nat, k: nat, l: nat)
  {
    i < k || (i == k && j < l)
  }

  /** `e` is at row `i`, column `j`. */
  predicate HoldsAt(matrix: seq<seq<string>>, e: string, i: nat, j: nat)
  {
    i < |matrix| && j < |matrix[i]| && matrix[i][j] == e
  }

  /** The first column from `j` on at which a row holds `e`. */
  function FirstInRow(row: seq<string>, e: string, j: nat): (r: Option<nat>)
    ensures r.Some? ==> j <= r.value < |row| && row[r.value] == e
    ensures r.Some? ==> forall l :: j <= l < r.value ==> row[l] != e
    ensures r.None? ==> forall l :: j <= l < |row| ==> row[l] != e
    decreases |row| - j
  {
    if j >= |row| then None
    else if row[j] == e then Some(j)
    else FirstInRow(row, e, j + 1)
  }

  /** The first cell, row by row from row `i` on, that holds `e`, as `(row,
      column)`. */
  function FirstMatch(matrix: seq<seq<string>>, e: string, i: nat): (r: Option<(nat, nat)>)
    ensures r.Some? ==> i <= r.value.0 && HoldsAt(matrix, e, r.value.0, r.value.1)
    ensures r.Some? ==> forall k, l :: i <= k && Earlier(k, l, r.value.0, r.value.1) ==> !HoldsAt(matrix, e, k, l)
    ensures r.None? ==> forall k, l :: i <= k ==> !HoldsAt(matrix, e, k, l)
    decreases |matrix| - i
  {
    if i >= |matrix| then None
    else
      match FirstInRow(matrix[i], e, 0)
      case Some(j) => Some((i, j))
      case None => FirstMatch(matrix, e, i + 1)
  }

  /** What `find_in_matrix` answers: the first match as `(column, row)`, or
      `(0, 0)` when there is none. */
  function Located(matrix: seq<seq<string>>, e: string): (nat, nat)
  {
    match FirstMatch(matrix, e, 0)
    case Some((i, j)) => (j, i)
    case None => (0, 0)
  }

  /** `find_in_matrix`: rows and columns scanned in order, returning at the
      first cell equal to `e`. */
  method FindInMatrix(matrix: seq<seq<string>>, e: string) returns (position: (nat, nat))
    ensures position == Located(matrix, e)
  {
    for i := 0 to |matrix|
      invariant FirstMatch(matrix, e, 0) == FirstMatch(matrix, e, i)
    {
      for j := 0 to |matrix[i]|
        invariant FirstInRow(matrix[i], e, 0) == FirstInRow(matrix[i], e, j)
      {
        if matrix[i][j] == e {
          return (j, i);
        }
      }
    }
    return (0, 0);
  }

  /** The source's test: in the grid `abc / def / ghi`, `e` is at column 1 of
      row 1. */
  method FindInMatrixExample() returns (position: (nat, nat))
    ensures position == (1, 1)
  {
    var matrix := [["a", "b", "c"], ["d", "e", "f"], ["g", "h", "i"]];
    assert FirstInRow(matrix[0], "e", 0).None?;
    assert FirstInRow(matrix[1], "e", 0) == Some(1);
    position := FindInMatrix(matrix, "e");
  }

  /** Whether `mv` stops at the border: the first row going up, the last row
      going down, the first column going left, the last column of the first
      row going right. */
  predicate AtBorder(data: seq<seq<string>>, position: (nat, nat), dir: Direction)
  {
    match dir
    case Up => position.1 == 0
    case Down => |data| > 0 && position.1 == |data| - 1
    case Left => position.0 == 0
    case Right => |data| > 0 && |data[0]| > 0 && position.0 == |data[0]| - 1
  }

  /** The outcome of `mv`. Going up writes into the cell being left, which
      panics outside the grid; going down computes `data.len() - 1` and going
      right `data[0].len() - 1`, which panic on an empty grid or first row. */
  function Outcome(data: seq<seq<string>>, position: (nat, nat), dir: Direction): MoveResult
  {
    match dir
    case Up =>
      if position.1 == 0 then Blocked
      else if position.1 < |data| && position.0 < |data[position.1]| then Moved
      else Panicked
    case Down =>
      if |data| == 0 then Panicked
      else if position.1 == |data| - 1 then Blocked
      else Moved
    case Left => if position.0 == 0 then Blocked else Moved
    case Right =>
      if |data| == 0 || |data[0]| == 0 then Panicked
      else if position.0 == |data[0]| - 1 then Blocked
      else Moved
  }

  /** The neighbour in a direction, `(column, row)`, rows counted downwards. */
  function Step(position: (nat, nat), dir: Direction): (nat, nat)
    requires dir == Up ==> position.1 > 0
    requires dir == Left ==> position.0 > 0
  {
    match dir
    case Up => (position.0, position.1 - 1)
    case Down => (position.0, position.1 + 1)
    case Left => (position.0 - 1, position.1)
    case Right => (position.0 + 1, position.1)
  }

  /** `mv` answers `Err` exactly at the border. */
  lemma BlockedExactlyAtBorder(data: seq<seq<string>>, position: (nat, nat), dir: Direction)
    requires Outcome(data, position, dir) != Panicked
    ensures Outcome(data, position, dir) == Blocked <==> AtBorder(data, position, dir)
  {
  }

  /** A move changes exactly one coordinate, by one. */
  lemma StepChangesOneCoordinate(position: (nat, nat), dir: Direction)
    requires dir == Up ==> position.1 > 0
    requires dir == Left ==> position.0 > 0
    ensures var next := Step(position, dir);
      (next.0 == position.0 && (next.1 == position.1 + 1 || next.1 + 1 == position.1)) ||
      (next.1 == position.1 && (next.0 == position.0 + 1 || next.0 + 1 == position.0))
  {
  }

  /** A move and the opposite move lead back. */
  function Opposite(dir: Direction): Direction
  {
    match dir
    case Up => Down
    case Down => Up
    case Left => Right
    case Right => Left
  }

  lemma StepBack(position: (nat, nat), dir: Direction)
    requires dir == Up ==> position.1 > 0
    requires dir == Left ==> position.0 > 0
    ensures var next := Step(position, dir);
      (Opposite(dir) == Up ==> next.1 > 0) && (Opposite(dir) == Left ==> next.0 > 0) &&
      Step(next, Opposite(dir)) == position
  {
  }

  /** The grid with `elem` written at `(column, row)`. */
  function Written(data: seq<seq<string>>, position: (nat, nat), elem: string): (r: seq<seq<string>>)
    requires position.1 < |data| && position.0 < |data[position.1]|
    ensures |r| == |data| && forall i :: 0 <= i < |r| ==> |r[i]| == |data[i]|
    ensures r[position.1][position.0] == elem
    ensures forall i, j :: 0 <= i < |data| && 0 <= j < |data[i]| && (i, j) != (position.1, position.0) ==>
      r[i][j] == data[i][j]
  {
    data[position.1 := data[position.1][position.0 := elem]]
  }

  /** The arrow a move leaves behind in the cell it leaves. */
  function Mark(dir: Direction): string
  {
    match dir
    case Up => "^"
    case Down => "v"
    case Left => "<"
    case Right => ">"
  }

  /** The outcome of a move that marks every cell it leaves: as `mv`, except
      that writing the mark panics when the current position is off the grid. */
  function MarkedOutcome(data: seq<seq<string>>, position: (nat, nat), dir: Direction): MoveResult
  {
    var outcome := Outcome(data, position, dir);
    if outcome == Moved && !(position.1 < |data| && position.0 < |data[position.1]|) then Panicked
    else outcome
  }

  /** On the grid, marking changes no outcome, and going up is marked by `mv`
      already. */
  lemma MarkedOutcomeOnGrid(data: seq<seq<string>>, position: (nat, nat), dir: Direction)
    requires position.1 < |data| && position.0 < |data[position.1]|
    ensures MarkedOutcome(data, position, dir) == Outcome(data, position, dir)
    ensures Mark(Up) == "^" && forall d :: d != Up ==> Mark(d) != "^"
  {
  }

  /** The sample map of the source's tests, one line per row. */
  const SampleRows: seq<string> := ["Sabqponm", "abcryxxl", "accszExk", "acctuvwj", "abdefghi"]
  const SampleInput: string := Join(SampleRows, '\n')

  /** The grid of the sample: the cells of each of its lines. */
  lemma SampleGrid()
    ensures var grid := Grid(SampleInput);
      |grid| == 5 && forall i :: 0 <= i < 5 ==> grid[i] == Cells(SampleRows[i])
  {
    LinesOfJoin(SampleRows);
  }

  /** In the sample, `S` is in the top left corner. */
  lemma SampleStart()
    ensures Located(Grid(SampleInput), "S") == (0, 0)
  {
    SampleGrid();
    FirstInCells(SampleRows[0], 'S');
    assert IndexOf(SampleRows[0], 'S') == 0;
  }

  /** The sample has five rows, the first of eight cells starting with `S`. */
  lemma SampleCorner()
    ensures var grid := Grid(SampleInput);
      |grid| == 5 && |grid[0]| == 8 && grid[0][0] == "S"
  {
    SampleGrid();
  }

  /** In the sample, `E` is at column 5 of row 2. */
  lemma SampleSummit()
    ensures Located(Grid(SampleInput), "E") == (5, 2)
  {
    SampleGrid();
    var grid := Grid(SampleInput);
    SummitRows();
    FirstInCells(SampleRows[0], 'E');
    FirstInCells(SampleRows[1], 'E');
    FirstInCells(SampleRows[2], 'E');
    FirstMatchSkip(grid, "E", 0);
    FirstMatchSkip(grid, "E", 1);
    FirstMatchHere(grid, "E", 2, 5);
  }

  lemma SummitRows()
    ensures 'E' !in SampleRows[0] && 'E' !in SampleRows[1]
    ensures 'E' in SampleRows[2] && IndexOf(SampleRows[2], 'E') == 5
  {
  }

  /** A row without a match passes the search on to the next row. */
  lemma FirstMatchSkip(matrix: seq<seq<string>>, e: string, i: nat)
    requires i < |matrix| && FirstInRow(matrix[i], e, 0).None?
    ensures FirstMatch(matrix, e, i) == FirstMatch(matrix, e, i + 1)
  {
  }

  lemma FirstMatchHere(matrix: seq<seq<string>>, e: string, i: nat, j: nat)
    requires i < |matrix| && FirstInRow(matrix[i], e, 0) == Some(j)
    ensures FirstMatch(matrix, e, i) == Some((i, j))
  {
  }

  /** `HeightMap`: the grid, the current position and the summit. */
  class HeightMap {
    var data: seq<seq<string>>
    var currentPos: (nat, nat)
    var highestPos: (nat, nat)

    /** `HeightMap::from`: the grid of the input, starting at `S`, with the
        summit at `E`. */
    constructor (input: string)
      ensures data == Grid(input)
      ensures currentPos == Located(Grid(input), "S") && highestPos == Located(Grid(input), "E")
    {
      var grid := Grid(input);
      var start := FindInMatrix(grid, "S");
      var summit := FindInMatrix(grid, "E");
      data, currentPos, highestPos := grid, start, summit;
    }

    /** `pos`: the cell at column `x` of row `y`, `None` off the grid. */
    function Pos(x: nat, y: nat): (r: Option<string>)
      reads this
      ensures r.Some? <==> y < |data| && x < |data[y]|
      ensures r.Some? ==> r.value == data[y][x]
    {
      if y < |data| && x < |data[y]| then Some(data[y][x]) else None
    }

    /** `mv`: one step in a direction. At the border nothing changes. Going up
        first writes `^` into the cell being left; no other move writes. */
    method Mv(dir: Direction) returns (r: MoveResult)
      modifies this
      ensures r == Outcome(old(data), old(currentPos), dir)
      ensures r == Moved ==> currentPos == Step(old(currentPos), dir)
      ensures r != Moved ==> currentPos == old(currentPos)
      ensures r == Moved && dir == Up ==> data == Written(old(data), old(currentPos), "^")
      ensures r != Moved || dir != Up ==> data == old(data)
      ensures highestPos == old(highestPos)
    {
      r := Outcome(data, currentPos, dir);
      if r != Moved {
        return;
      }
      match dir
      case Up =>
        UpdateCurrentPos("^");
        currentPos := (currentPos.0, currentPos.1 - 1);
      case Down =>
        currentPos := (currentPos.0, currentPos.1 + 1);
      case Left =>
        currentPos := (currentPos.0 - 1, currentPos.1);
      case Right =>
        currentPos := (currentPos.0 + 1, currentPos.1);
    }

    /** A move that marks the cell it leaves with the arrow of its
        direction, going down with `v` as the source's test expects. */
    method MvMarked(dir: Direction) returns (r: MoveResult)
      modifies this
      ensures r == MarkedOutcome(old(data), old(currentPos), dir)
      ensures r == Moved ==> currentPos == Step(old(currentPos), dir)
      ensures r == Moved ==> data == Written(old(data), old(currentPos), Mark(dir))
      ensures r != Moved ==> currentPos == old(currentPos) && data == old(data)
      ensures highestPos == old(highestPos)
    {
      r := MarkedOutcome(data, currentPos, dir);
      if r != Moved {
        return;
      }
      UpdateCurrentPos(Mark(dir));
      match dir
      case Up =>
        currentPos := (currentPos.0, currentPos.1 - 1);
      case Down =>
        currentPos := (currentPos.0, currentPos.1 + 1);
      case Left =>
        currentPos := (currentPos.0 - 1, currentPos.1);
      case Right =>
        currentPos := (currentPos.0 + 1, currentPos.1);
    }

    /** `update_current_pos`: `elem` written into the current cell. */
    method UpdateCurrentPos(elem: string)
      requires currentPos.1 < |data| && currentPos.0 < |data[currentPos.1]|
      modifies this
      ensures data == Written(old(data), old(currentPos), elem)
      ensures currentPos == old(currentPos) && highestPos == old(highestPos)
    {
      data := data[currentPos.1 := data[currentPos.1][currentPos.0 := elem]];
    }
  }

  /** The source's test of `from`: the sample starts at (0, 0) with the summit
      at (5, 2). */
  method HeightMapExample() returns (m: HeightMap)
    ensures m.currentPos == (0, 0) && m.highestPos == (5, 2)
  {
    SampleStart();
    SampleSummit();
    m := new HeightMap(SampleInput);
  }

  /** The source's test of `mv` as the code stands: going down from the start
      moves to (0, 1), but the cell left keeps its `S` rather than the `v` the
      test expects. */
  method MoveDownExample() returns (m: HeightMap, r: MoveResult)
    ensures r == Moved && m.currentPos == (0, 1)
    ensures m.Pos(0, 0) == Some("S") && m.Pos(0, 0) != Some("v")
  {
    SampleCorner();
    SampleStart();
    m := new HeightMap(SampleInput);
    r := m.Mv(Down);
  }

  /** The same test with marking moves: the cell left holds `v`. */
  method MoveDownMarkedExample() returns (m: HeightMap, r: MoveResult)
    ensures r == Moved && m.currentPos == (0, 1)
    ensures m.Pos(0, 0) == Some("v")
  {
    SampleCorner();
    SampleStart();
    m := new HeightMap(SampleInput);
    r := m.MvMarked(Down);
  }
}
