/** The guard of 2024 day 6: on a map of rows of characters the guard '^'
    walks up, turning right in front of an obstacle '#', until it leaves the
    map; part one counts the positions it stood on. Positions are `x` for
    the column and `y` for the row, `y` growing downwards. */
module GuardGallivant {
  import opened Text

  /** `Vector`: a step in columns and rows. */
  datatype Vector = Vector(x: int, y: int)

  /** `Direction`: the four headings of the guard. */
  datatype Direction = Up | Right | Down | Left
  {
    /** The step each heading stands for. */
    function Value(): Vector
    {
      match this
      case Up => Vector(0, -1)
      case Right => Vector(1, 0)
      case Down => Vector(0, 1)
      case Left => Vector(-1, 0)
    }
  }

  /** `next_clockwise_direction`: a quarter turn to the right. */
  function NextClockwise(direction: Direction): (r: Direction)
    ensures r.Value() == Vector(-direction.Value().y, direction.Value().x)
  {
    match direction
    case Up => Right
    case Right => Down
    case Down => Left
    case Left => Up
  }

  /** Four quarter turns bring the guard back to its heading, and no fewer
      do. */
  lemma {:induction false} FourTurns(direction: Direction)
    ensures NextClockwise(NextClockwise(NextClockwise(NextClockwise(direction)))) == direction
    ensures NextClockwise(direction) != direction
    ensures NextClockwise(NextClockwise(direction)) != direction
    ensures NextClockwise(NextClockwise(NextClockwise(direction))) != direction
  {
    assert NextClockwise(NextClockwise(direction)).Value() == Vector(-direction.Value().x, -direction.Value().y);
  }

  /** `Point`. */
  datatype Point = Point(x: int, y: int)

  /** `Point.next_position`: the point one step along the heading. */
  function NextPosition(position: Point, direction: Direction): (r: Point)
    ensures r.x - position.x == direction.Value().x && r.y - position.y == direction.Value().y
  {
    Point(position.x + direction.Value().x, position.y + direction.Value().y)
  }

  /** The state of a guard: where it is, where it faces and where it has
      been. */
  datatype GuardState = GuardState(position: Point, direction: Direction, visited: set<Point>)

  /** `Guard`: the position is replaced when the guard moves, which stands
      for `Point.move` updating the point in place. */
  class Guard {
    var position: Point
    var direction: Direction
    var visitedPositions: set<Point>

    /** `Guard(position, direction)`: nothing visited yet. */
    constructor(position: Point, direction: Direction)
      ensures this.position == position && this.direction == direction && visitedPositions == {}
    {
      this.position := position;
      this.direction := direction;
      visitedPositions := {};
    }

    function State(): GuardState
      reads this
    {
      GuardState(position, direction, visitedPositions)
    }

    /** `Guard.next_position`. */
    function Next(): Point
      reads this
    {
      NextPosition(position, direction)
    }

    /** `Guard.move`: the current position recorded, then one step along
      the heading. */
    method Move()
      modifies this
      ensures State() == MoveState(old(State()))
    {
      visitedPositions := visitedPositions + {position};
      position := NextPosition(position, direction);
    }

    /** `Guard.turn_right`: only the heading changes. */
    method TurnRight()
      modifies this
      ensures State() == TurnState(old(State()))
    {
      direction := NextClockwise(direction);
    }
  }

  function MoveState(guard: GuardState): GuardState
  {
    GuardState(NextPosition(guard.position, guard.direction), guard.direction, guard.visited + {guard.position})
  }

  function TurnState(guard: GuardState): GuardState
  {
    GuardState(guard.position, NextClockwise(guard.direction), guard.visited)
  }

  /** A move records the position left and only it, and goes one step. */
  lemma MoveStateSpec(guard: GuardState)
    ensures MoveState(guard).visited - guard.visited <= {guard.position}
    ensures guard.position in MoveState(guard).visited
    ensures var p, q := guard.position, MoveState(guard).position;
      (if p.x < q.x then q.x - p.x else p.x - q.x) + (if p.y < q.y then q.y - p.y else p.y - q.y) == 1
  {
  }

  /** The moves and turns of the visited-positions example: down, right
      turn, left twice, two right turns, right; the last move goes back to
      a position already recorded. */
  method VisitedExample() returns (visited: set<Point>)
    ensures visited == {Point(1, 1), Point(1, 2), Point(0, 2), Point(-1, 2)}
  {
    var guard := new Guard(Point(1, 1), Down);
    guard.Move();
    guard.TurnRight();
    guard.Move();
    guard.Move();
    guard.TurnRight();
    guard.TurnRight();
    guard.Move();
    visited := guard.visitedPositions;
  }

  /** `symbol` is at column `x` of row `y` of the map. */
  predicate Holds(area: seq<string>, symbol: char, p: Point)
  {
    0 <= p.y < |area| && 0 <= p.x < |area[p.y]| && area[p.y][p.x] == symbol
  }

  /** The first row from `row` on holding `symbol`, at its first column
      holding it. */
  function Locate(area: seq<string>, symbol: char, row: nat): (r: Option<Point>)
    requires row <= |area|
    decreases |area| - row
  {
    if row == |area| then None
    else if symbol in area[row] then Some(Point(IndexOf(area[row], symbol), row))
    else Locate(area, symbol, row + 1)
  }

  /** What `Locate` finds holds the symbol, and no cell before it in row
      order does; it finds nothing exactly when no row from `row` on holds
      the symbol. */
  lemma {:induction false} LocateSpec(area: seq<string>, symbol: char, row: nat)
    requires row <= |area|
    ensures Locate(area, symbol, row).None? <==> forall y :: row <= y < |area| ==> symbol !in area[y]
    ensures Locate(area, symbol, row).Some? ==> var p := Locate(area, symbol, row).value;
      row <= p.y && Holds(area, symbol, p) && symbol !in area[p.y][..p.x] &&
      forall y :: row <= y < p.y ==> symbol !in area[y]
    decreases |area| - row
  {
    if row < |area| && symbol !in area[row] {
      LocateSpec(area, symbol, row + 1);
    }
  }

  /** `get_guard`: the map read row by row, and a guard facing up made at
      the first cell holding the symbol; `null` when there is none. */
  method GetGuard(area: seq<string>, symbol: char) returns (guard: Guard?)
    ensures guard == null <==> Locate(area, symbol, 0).None?
    ensures guard != null ==> fresh(guard)
    ensures guard != null ==> guard.State() == GuardState(Locate(area, symbol, 0).value, Up, {})
  {
    for row := 0 to |area|
      invariant Locate(area, symbol, 0) == Locate(area, symbol, row)
    {
      for col := 0 to |area[row]|
        invariant symbol !in area[row][..col]
      {
        if area[row][col] == symbol {
          assert symbol in area[row];
          guard := new Guard(Point(col, row), Up);
          return;
        }
        assert area[row][..col + 1] == area[row][..col] + [area[row][col]];
      }
      assert area[row][..|area[row]|] == area[row];
    }
    return null;
  }

  /** `get_obstacles`: a key for every cell holding the symbol, each mapped
      to `True`. */
  method GetObstacles(area: seq<string>, symbol: char) returns (obstacles: map<Point, bool>)
    ensures forall p :: p in obstacles <==> Holds(area, symbol, p)
    ensures forall p :: p in obstacles ==> obstacles[p]
  {
    obstacles := map[];
    for row := 0 to |area|
      invariant forall p :: p in obstacles <==> Holds(area, symbol, p) && p.y < row
      invariant forall p :: p in obstacles ==> obstacles[p]
    {
      for col := 0 to |area[row]|
        invariant forall p :: p in obstacles <==> Holds(area, symbol, p) && (p.y < row || (p.y == row && p.x < col))
        invariant forall p :: p in obstacles ==> obstacles[p]
      {
        if area[row][col] == symbol {
          obstacles := obstacles[Point(col, row) := true];
        }
      }
    }
  }

  /** `guard_is_outside_the_map_area`: the row outside `[0, rows)` or the
      column outside `[0, cols)`. */
  predicate Outside(position: Point, rows: int, cols: int)
  {
    (position.y < 0 || position.y >= rows) || (position.x < 0 || position.x >= cols)
  }

  predicate GuardIsOutsideTheMapArea(guard: Guard, boundaries: (int, int))
    reads guard
  {
    Outside(guard.position, boundaries.0, boundaries.1)
  }

  /** Every row as long as the first. */
  predicate Rectangular(area: seq<string>)
  {
    forall y :: 0 <= y < |area| ==> |area[y]| == |area[0]|
  }

  /** On a rectangular area, a guard inside the boundaries of part one is
      on a cell of the area, and one outside them is on none. */
  lemma InsideIsOnMap(area: seq<string>, position: Point)
    requires area != [] && Rectangular(area)
    ensures !Outside(position, |area|, |area[0]|) <==>
      0 <= position.y < |area| && 0 <= position.x < |area[position.y]|
  {
  }

  /** `get_map`: each line turned into its list of characters, which is
      the line itself. */
  method GetMap(input: seq<string>) returns (area: seq<string>)
    ensures |area| == |input|
    ensures forall i :: 0 <= i < |input| ==> area[i] == input[i]
  {
    area := [];
    for i := 0 to |input|
      invariant area == input[..i]
    {
      area := area + [input[i]];
    }
  }

  /** One round of the loop of `part_one`: a single right turn when the
      next position is an obstacle, then a move. */
  function Round(guard: GuardState, obstacles: set<Point>): GuardState
  {
    var turned := if NextPosition(guard.position, guard.direction) in obstacles then TurnState(guard) else guard;
    MoveState(turned)
  }

  /** The rounds of `part_one` until the guard is outside the boundaries;
      `None` when `fuel` rounds do not get it out. */
  function Walk(guard: GuardState, obstacles: set<Point>, rows: int, cols: int, fuel: nat): Option<GuardState>
    decreases fuel
  {
    if Outside(guard.position, rows, cols) then Some(guard)
    else if fuel == 0 then None
    else Walk(Round(guard, obstacles), obstacles, rows, cols, fuel - 1)
  }

  /** Every position in `cells` is inside the boundaries. */
  predicate AllInside(cells: set<Point>, rows: int, cols: int)
  {
    forall p :: p in cells ==> !Outside(p, rows, cols)
  }

  /** The walk ends outside the boundaries, having recorded only positions
      inside them, and forgets none recorded before. */
  lemma {:induction false} WalkSpec(guard: GuardState, obstacles: set<Point>, rows: int, cols: int, fuel: nat)
    requires AllInside(guard.visited, rows, cols)
    ensures Walk(guard, obstacles, rows, cols, fuel).Some? ==>
      var end := Walk(guard, obstacles, rows, cols, fuel).value;
      Outside(end.position, rows, cols) && AllInside(end.visited, rows, cols) && guard.visited <= end.visited
    decreases fuel
  {
    if !Outside(guard.position, rows, cols) && fuel > 0 {
      WalkSpec(Round(guard, obstacles), obstacles, rows, cols, fuel - 1);
    }
  }

  /** A guard that starts outside records nothing. */
  lemma WalkFromOutside(guard: GuardState, obstacles: set<Point>, rows: int, cols: int, fuel: nat)
    requires Outside(guard.position, rows, cols)
    ensures Walk(guard, obstacles, rows, cols, fuel) == Some(guard)
  {
  }

  /** As written, one right turn may face another obstacle, and the guard
      then steps onto it: on the map "#." over "^#" the guard at (0, 1)
      facing up turns right and moves onto the obstacle at (1, 1). */
  lemma RoundStepsOntoObstacle()
    ensures Round(GuardState(Point(0, 1), Up, {}), {Point(0, 0), Point(1, 1)}).position in {Point(0, 0), Point(1, 1)}
  {
    var obstacles := {Point(0, 0), Point(1, 1)};
    var guard := GuardState(Point(0, 1), Up, {});
    assert NextPosition(guard.position, Up) == Point(0, 0);
    assert TurnState(guard) == GuardState(Point(0, 1), Right, {});
    assert NextPosition(guard.position, Right) == Point(1, 1);
  }

  /** A right turn for as long as the next position is an obstacle, at
      most three times; `None` when the guard is boxed in on all four
      sides. */
  function TurnUntilFree(guard: GuardState, obstacles: set<Point>, turns: nat): (r: Option<GuardState>)
    requires turns <= 3
    ensures r.Some? ==> NextPosition(r.value.position, r.value.direction) !in obstacles
    ensures r.Some? ==> r.value.position == guard.position && r.value.visited == guard.visited
    decreases 3 - turns
  {
    if NextPosition(guard.position, guard.direction) !in obstacles then Some(guard)
    else if turns == 3 then None
    else TurnUntilFree(TurnState(guard), obstacles, turns + 1)
  }

  /** A round that turns until the way is free before moving. */
  function RoundTurningUntilFree(guard: GuardState, obstacles: set<Point>): (r: Option<GuardState>)
    ensures r.Some? ==> r.value.position !in obstacles
  {
    match TurnUntilFree(guard, obstacles, 0)
    case None => None
    case Some(turned) => Some(MoveState(turned))
  }

  /** When one turn at most frees the way, the corrected round is the
      round as written. */
  lemma RoundsAgree(guard: GuardState, obstacles: set<Point>)
    requires NextPosition(guard.position, guard.direction) in obstacles ==>
      NextPosition(guard.position, NextClockwise(guard.direction)) !in obstacles
    ensures RoundTurningUntilFree(guard, obstacles) == Some(Round(guard, obstacles))
  {
  }

  /** The walk with the corrected round. */
  function WalkTurningUntilFree(guard: GuardState, obstacles: set<Point>, rows: int, cols: int, fuel: nat): Option<GuardState>
    decreases fuel
  {
    if Outside(guard.position, rows, cols) then Some(guard)
    else if fuel == 0 then None
    else
      match RoundTurningUntilFree(guard, obstacles)
      case None => None
      case Some(next) => WalkTurningUntilFree(next, obstacles, rows, cols, fuel - 1)
  }

  /** With the corrected round, a guard that starts off the obstacles never
      stands on one. */
  lemma {:induction false} WalkAvoidsObstacles(guard: GuardState, obstacles: set<Point>, rows: int, cols: int, fuel: nat)
    requires guard.position !in obstacles && guard.visited !! obstacles
    ensures WalkTurningUntilFree(guard, obstacles, rows, cols, fuel).Some? ==>
      var end := WalkTurningUntilFree(guard, obstacles, rows, cols, fuel).value;
      end.position !in obstacles && end.visited !! obstacles
    decreases fuel
  {
    if !Outside(guard.position, rows, cols) && fuel > 0 {
      match RoundTurningUntilFree(guard, obstacles)
      case None =>
      case Some(next) =>
        WalkAvoidsObstacles(next, obstacles, rows, cols, fuel - 1);
    }
  }

  /** The cells holding the symbol. */
  function Cells(area: seq<string>, symbol: char): set<Point>
  {
    set y, x | 0 <= y < |area| && 0 <= x < |area[y]| && area[y][x] == symbol :: Point(x, y)
  }

  lemma CellsSpec(area: seq<string>, symbol: char, p: Point)
    ensures p in Cells(area, symbol) <==> Holds(area, symbol, p)
  {
    if Holds(area, symbol, p) {
      assert p == Point(p.x, p.y);
    }
  }

  /** Part one: no row means no first row, which raises; no guard gives 0;
      otherwise the number of positions recorded by the walk, `None` when it
      takes more than `fuel` rounds. */
  function PartOneValue(input: seq<string>, fuel: nat): Option<nat>
  {
    if input == [] then None
    else
      match Locate(input, '^', 0)
      case None => Some(0)
      case Some(start) =>
        match Walk(GuardState(start, Up, {}), Cells(input, '#'), |input|, |input[0]|, fuel)
        case None => None
        case Some(end) => Some(|end.visited|)
  }

  /** `part_one`, with the loop cut after `fuel` rounds. */
  method PartOne(input: seq<string>, fuel: nat) returns (r: Option<nat>)
    ensures r == PartOneValue(input, fuel)
  {
    var area := GetMap(input);
    assert area == input;
    if |area| == 0 {
      return None;
    }
    var mapBoundaries := (|area|, |area[0]|);
    var guard := GetGuard(area, '^');
    if guard == null {
      return Some(0);
    }
    var obstacles := GetObstacles(area, '#');
    assert obstacles.Keys == Cells(area, '#') by {
      forall p ensures p in obstacles.Keys <==> p in Cells(area, '#') {
        CellsSpec(area, '#', p);
      }
    }
    var ended := Patrol(guard, obstacles, mapBoundaries, fuel);
    if !ended {
      return None;
    }
    return Some(|guard.visitedPositions|);
  }

  /** The loop of `part_one`: rounds until the guard is outside the
      boundaries; `false` when `fuel` rounds do not get it out. */
  method Patrol(guard: Guard, obstacles: map<Point, bool>, boundaries: (int, int), fuel: nat) returns (ended: bool)
    modifies guard
    ensures var walk := Walk(old(guard.State()), obstacles.Keys, boundaries.0, boundaries.1, fuel);
      if ended then walk == Some(guard.State()) else walk.None?
  {
    var remaining := fuel;
    while !GuardIsOutsideTheMapArea(guard, boundaries)
      invariant Walk(guard.State(), obstacles.Keys, boundaries.0, boundaries.1, remaining) ==
        Walk(old(guard.State()), obstacles.Keys, boundaries.0, boundaries.1, fuel)
      decreases remaining
    {
      if remaining == 0 {
        return false;
      }
      ghost var before := guard.State();
      if guard.Next() in obstacles {
        guard.TurnRight();
      }
      guard.Move();
      assert guard.State() == Round(before, obstacles.Keys);
      remaining := remaining - 1;
    }
    return true;
  }
}
