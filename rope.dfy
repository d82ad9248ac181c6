/** The rope of 2022 day 9: a head knot is moved step by step on the grid and
    every following knot chases the one before it, recording where it has been. */
module RopeBridge {
  import opened Text
  import Arith

  /** A motion of the head: a direction and a number of steps. */
  datatype Move = Up(n: nat) | Right(n: nat) | Down(n: nat) | Left(n: nat) | Unknown(direction: string)

  /** `Move::from`: a direction letter, a space and a step count. A line without
      a second word or with a count that does not parse gives `None` (a panic);
      a letter other than U, R, D or L gives `Unknown`. */
  function ParseMove(input: string): (r: Option<Move>)
    ensures r.Some? <==> |Split(input, ' ')| >= 2 && ParseU32(Split(input, ' ')[1]).Some?
    ensures r.Some? && !r.value.Unknown? ==> r.value.n <= U32_MAX
    ensures r.Some? && r.value.Unknown? ==> r.value.direction !in {"U", "R", "D", "L"}
  {
    var words := Split(input, ' ');
    if |words| < 2 then None
    else
      match ParseU32(words[1])
      case None => None
      case Some(amount) =>
        Some(match words[0]
          case "U" => Up(amount)
          case "R" => Right(amount)
          case "D" => Down(amount)
          case "L" => Left(amount)
          case _ => Unknown(words[0]))
  }

  function Letter(mv: Move): string
    requires !mv.Unknown?
  {
    match mv
    case Up(_) => "U"
    case Right(_) => "R"
    case Down(_) => "D"
    case Left(_) => "L"
  }

  /** A known motion as the puzzle input writes it. */
  function MoveText(mv: Move): string
    requires !mv.Unknown?
  {
    Letter(mv) + " " + ShowNat(mv.n)
  }

  /** Writing a motion and parsing it back gives the motion. */
  lemma ParseMoveText(mv: Move)
    requires !mv.Unknown? && mv.n <= U32_MAX
    ensures ParseMove(MoveText(mv)) == Some(mv)
  {
    var letter, amount := Letter(mv), ShowNat(mv.n);
    assert ' ' !in letter;
    assert forall k :: 0 <= k < |amount| ==> IsDigit(amount[k]);
    assert ' ' !in amount;
    SplitJoin([letter, amount], ' ');
    assert Join([letter, amount], ' ') == MoveText(mv);
    ParseShowU32(mv.n);
    ParseMoveWords(MoveText(mv), letter, amount, mv);
  }

  /** A line that splits into a known letter and a count parses to that motion. */
  lemma ParseMoveWords(input: string, letter: string, amount: string, mv: Move)
    requires !mv.Unknown? && letter == Letter(mv)
    requires Split(input, ' ') == [letter, amount] && ParseU32(amount) == Some(mv.n)
    ensures ParseMove(input) == Some(mv)
  {
  }

  datatype Position = Position(x: int, y: int)

  /** Rust's `n as i32` on a `u32`: the same bits read as a two's-complement
      number, so amounts from 2^31 on become negative. A `Move` holds a `u32`,
      so only its low 32 bits are read. */
  function AsI32(n: nat): (r: int)
    ensures I32_MIN <= r <= I32_MAX
    ensures r % 0x1_0000_0000 == n % 0x1_0000_0000
    ensures n <= U32_MAX ==> (r >= 0 <==> n <= I32_MAX)
  {
    var w := n % 0x1_0000_0000;
    if w <= I32_MAX then w else w - 0x1_0000_0000
  }

  /** `Position::update`: moves along one axis by the amount cast to `i32`;
      `Unknown` stays put. An amount of 2^31 or more wraps to a negative shift,
      so the position moves the other way by 2^32 minus the amount. */
  function Update(p: Position, mv: Move): (q: Position)
    ensures mv.Up? || mv.Down? ==> q.x == p.x
    ensures mv.Left? || mv.Right? ==> q.y == p.y
    ensures mv.Unknown? ==> q == p
    ensures !mv.Unknown? && mv.n <= I32_MAX ==> Arith.Abs(q.x - p.x) + Arith.Abs(q.y - p.y) == mv.n
    ensures !mv.Unknown? && I32_MAX < mv.n <= U32_MAX ==> Arith.Abs(q.x - p.x) + Arith.Abs(q.y - p.y) == 0x1_0000_0000 - mv.n
    ensures (mv.Up? || mv.Right?) && mv.n <= U32_MAX ==> (q.x + q.y >= p.x + p.y <==> mv.n <= I32_MAX)
    ensures (mv.Down? || mv.Left?) && mv.n <= U32_MAX ==> (q.x + q.y <= p.x + p.y <==> mv.n <= I32_MAX)
  {
    match mv
    case Up(n) => Position(p.x, p.y + AsI32(n))
    case Right(n) => Position(p.x + AsI32(n), p.y)
    case Down(n) => Position(p.x, p.y - AsI32(n))
    case Left(n) => Position(p.x - AsI32(n), p.y)
    case Unknown(_) => p
  }

  /** `is_diagonal_to`: strictly on a diagonal through `b`. */
  predicate IsDiagonalTo(a: Position, b: Position)
  {
    a.x != b.x && a.y != b.y && Arith.Abs(a.x - b.x) == Arith.Abs(a.y - b.y)
  }

  /** Being on a diagonal is symmetric, and for touching knots it means being
      a diagonal neighbour, one step off along both axes. */
  lemma DiagonalNeighbours(a: Position, b: Position)
    ensures IsDiagonalTo(a, b) <==> IsDiagonalTo(b, a)
    ensures Touching(a, b) ==>
      (IsDiagonalTo(a, b) <==> Arith.Abs(a.x - b.x) == 1 && Arith.Abs(a.y - b.y) == 1)
  {
  }

  /** The largest `r` with `r * r <= n`. */
  function ISqrt(n: nat): (r: nat)
    ensures r * r <= n < (r + 1) * (r + 1)
  {
    if n == 0 then 0
    else
      var s := ISqrt(n - 1);
      if (s + 1) * (s + 1) <= n then
        assert (s + 2) * (s + 2) == (s + 1) * (s + 1) + 2 * s + 3;
        s + 1
      else s
  }

  /** `distance_to`: the Euclidean distance, rounded down. */
  function DistanceTo(a: Position, b: Position): nat
  {
    ISqrt(SquaredDistance(a, b))
  }

  /** The square of the Euclidean distance. */
  function SquaredDistance(a: Position, b: Position): int
  {
    (b.x - a.x) * (b.x - a.x) + (b.y - a.y) * (b.y - a.y)
  }

  /** Knots touch (overlap or are adjacent, diagonals included). */
  predicate Touching(a: Position, b: Position)
  {
    -1 <= a.x - b.x <= 1 && -1 <= a.y - b.y <= 1
  }

  lemma SquareAtLeastFour(d: int)
    requires d < -1 || d > 1
    ensures d * d >= 4
  {
    if d > 1 {
      assert d * d >= 2 * d;
    } else {
      assert d * d == (-d) * (-d);
      assert (-d) * (-d) >= 2 * (-d);
    }
  }

  lemma SquareAtLeastZero(d: int)
    ensures d * d >= 0
  {
    if d < 0 {
      assert d * d == (-d) * (-d);
    }
  }

  lemma SquareAtMostOne(d: int)
    requires -1 <= d <= 1
    ensures d * d <= 1
  {
    assert d == -1 || d == 0 || d == 1;
  }

  /** The rounded-down root is at most 1 exactly below 4. */
  lemma ISqrtAtMostOne(n: nat)
    ensures ISqrt(n) <= 1 <==> n < 4
  {
    var r := ISqrt(n);
    if r >= 2 {
      assert r * r >= 2 * r;
    } else {
      assert (r + 1) * (r + 1) <= 4;
    }
  }

  /** The squared distance is at most 2 between touching knots and at
      least 4 between others. */
  lemma SquaredDistanceBounds(a: Position, b: Position)
    ensures Touching(a, b) ==> SquaredDistance(a, b) <= 2
    ensures !Touching(a, b) ==> SquaredDistance(a, b) >= 4
  {
    var dx, dy := b.x - a.x, b.y - a.y;
    SquareAtLeastZero(dx);
    SquareAtLeastZero(dy);
    if Touching(a, b) {
      SquareAtMostOne(dx);
      SquareAtMostOne(dy);
    } else if dx < -1 || dx > 1 {
      SquareAtLeastFour(dx);
    } else {
      SquareAtLeastFour(dy);
    }
  }

  /** A distance of at most 1 means exactly that the knots touch. */
  lemma DistanceAtMostOne(a: Position, b: Position)
    ensures DistanceTo(a, b) <= 1 <==> Touching(a, b)
  {
    ISqrtAtMostOne(SquaredDistance(a, b));
    SquaredDistanceBounds(a, b);
  }

  /** The state of one knot, as a value. */
  datatype KnotState = KnotState(pos: Position, lastPosition: Position, visited: set<Position>)

  /** `move_knot`: the head takes the move; a follower that no longer touches its
      predecessor jumps to the predecessor's last position when it is diagonal
      to it, and takes the move otherwise, recording its new position. */
  function KnotAfter(knots: seq<KnotState>, i: nat, mv: Move): (r: seq<KnotState>)
    requires i < |knots|
    ensures |r| == |knots|
  {
    var k := knots[i];
    if i == 0 then knots[0 := KnotState(Update(k.pos, mv), k.pos, k.visited)]
    else
      var previous := knots[i - 1];
      if DistanceTo(k.pos, previous.pos) <= 1 then knots
      else
        var next := if IsDiagonalTo(k.pos, previous.lastPosition) then previous.lastPosition else Update(k.pos, mv);
        knots[i := KnotState(next, k.pos, k.visited + {next})]
  }

  /** Knots `i`, `i + 1`, ... each take one step, in order. */
  function StepFrom(knots: seq<KnotState>, i: nat, mv: Move): (r: seq<KnotState>)
    requires i <= |knots|
    ensures |r| == |knots|
    decreases |knots| - i
  {
    if i == |knots| then knots else StepFrom(KnotAfter(knots, i, mv), i + 1, mv)
  }

  /** `count` unit steps of the whole rope. */
  function Steps(knots: seq<KnotState>, mv: Move, count: nat): (r: seq<KnotState>)
    ensures |r| == |knots|
    decreases count
  {
    if count == 0 then knots else Steps(StepFrom(knots, 0, mv), mv, count - 1)
  }

  /** The unit move in the direction of `mv`. */
  function UnitOf(mv: Move): Move
    requires !mv.Unknown?
  {
    match mv
    case Up(_) => Up(1)
    case Right(_) => Right(1)
    case Down(_) => Down(1)
    case Left(_) => Left(1)
  }

  /** `move_rope`: `n` unit steps in the direction of the move; `Unknown` does nothing. */
  function RopeAfter(knots: seq<KnotState>, mv: Move): (r: seq<KnotState>)
    ensures |r| == |knots|
  {
    if mv.Unknown? then knots else Steps(knots, UnitOf(mv), mv.n)
  }

  /** Every follower stands on a position it has visited. */
  ghost predicate FollowersRecorded(knots: seq<KnotState>)
  {
    forall i :: 0 < i < |knots| ==> knots[i].pos in knots[i].visited
  }

  /** Visited sets only grow. */
  ghost predicate VisitedGrew(before: seq<KnotState>, after: seq<KnotState>)
  {
    |before| == |after| && forall i :: 0 <= i < |before| ==> before[i].visited <= after[i].visited
  }

  /** One knot's move keeps followers on visited positions and only adds to the
      visited sets. */
  lemma MoveKnotKeepsRecord(knots: seq<KnotState>, i: nat, mv: Move)
    requires i < |knots| && FollowersRecorded(knots)
    ensures FollowersRecorded(KnotAfter(knots, i, mv))
    ensures VisitedGrew(knots, KnotAfter(knots, i, mv))
  {
  }

  lemma {:induction false} StepFromKeepsRecord(knots: seq<KnotState>, i: nat, mv: Move)
    requires i <= |knots| && FollowersRecorded(knots)
    ensures FollowersRecorded(StepFrom(knots, i, mv))
    ensures VisitedGrew(knots, StepFrom(knots, i, mv))
    decreases |knots| - i
  {
    if i < |knots| {
      MoveKnotKeepsRecord(knots, i, mv);
      StepFromKeepsRecord(KnotAfter(knots, i, mv), i + 1, mv);
    }
  }

  /** Whatever the motions, followers stand on visited positions and no visited
      position is ever forgotten. */
  lemma {:induction false} MoveRopeKeepsRecord(knots: seq<KnotState>, mv: Move)
    requires FollowersRecorded(knots)
    ensures FollowersRecorded(RopeAfter(knots, mv))
    ensures VisitedGrew(knots, RopeAfter(knots, mv))
  {
    if !mv.Unknown? {
      StepsKeepRecord(knots, UnitOf(mv), mv.n);
    }
  }

  lemma {:induction false} StepsKeepRecord(knots: seq<KnotState>, mv: Move, count: nat)
    requires FollowersRecorded(knots)
    ensures FollowersRecorded(Steps(knots, mv, count))
    ensures VisitedGrew(knots, Steps(knots, mv, count))
    decreases count
  {
    if count > 0 {
      StepFromKeepsRecord(knots, 0, mv);
      StepsKeepRecord(StepFrom(knots, 0, mv), mv, count - 1);
    }
  }

  /** A unit step in one of the four directions. */
  predicate IsUnit(mv: Move)
  {
    !mv.Unknown? && mv.n == 1
  }

  /** In a two-knot rope the tail always touches the head: whatever unit step the
      head takes, the tail follows so that they touch again. */
  lemma TwoKnotsStayTogether(knots: seq<KnotState>, mv: Move)
    requires |knots| == 2 && IsUnit(mv) && Touching(knots[0].pos, knots[1].pos)
    ensures Touching(StepFrom(knots, 0, mv)[0].pos, StepFrom(knots, 0, mv)[1].pos)
    ensures StepFrom(knots, 0, mv)[0].pos == Update(knots[0].pos, mv)
  {
    var afterHead := KnotAfter(knots, 0, mv);
    var head, tail := afterHead[0], afterHead[1];
    assert head.lastPosition == knots[0].pos;
    assert StepFrom(knots, 0, mv) == StepFrom(afterHead, 1, mv);
    assert StepFrom(afterHead, 1, mv) == KnotAfter(afterHead, 1, mv);
    DistanceAtMostOne(tail.pos, head.pos);
    var result := KnotAfter(afterHead, 1, mv);
    if DistanceTo(tail.pos, head.pos) > 1 {
      if IsDiagonalTo(tail.pos, head.lastPosition) {
        assert result[1].pos == knots[0].pos;
      } else {
        assert result[1].pos == Update(tail.pos, mv);
      }
    }
  }

  /** A knot of the rope. */
  class Knot {
    var pos: Position
    var lastPosition: Position
    var visitedPositions: set<Position>

    /** A knot at the origin that has visited only the origin. */
    constructor ()
      ensures pos == Position(0, 0) && lastPosition == Position(0, 0)
      ensures visitedPositions == {Position(0, 0)}
    {
      pos := Position(0, 0);
      lastPosition := Position(0, 0);
      visitedPositions := {Position(0, 0)};
    }

    ghost function State(): KnotState
      reads this
    {
      KnotState(pos, lastPosition, visitedPositions)
    }
  }

  /** The rope: its knots, head first. */
  class Rope {
    const knots: seq<Knot>

    ghost predicate Valid()
    {
      forall i, j :: 0 <= i < j < |knots| ==> knots[i] != knots[j]
    }

    ghost function State(): seq<KnotState>
      reads knots
    {
      seq(|knots|, i reads knots requires 0 <= i < |knots| => knots[i].State())
    }

    /** `Rope::new`: `count` fresh knots at the origin. */
    constructor (count: nat)
      ensures |knots| == count && Valid()
      ensures forall i :: 0 <= i < count ==> fresh(knots[i])
      ensures forall i :: 0 <= i < count ==>
        State()[i] == KnotState(Position(0, 0), Position(0, 0), {Position(0, 0)})
    {
      var made: seq<Knot> := [];
      for k := 0 to count
        invariant |made| == k
        invariant forall i :: 0 <= i < k ==> fresh(made[i])
        invariant forall i, j :: 0 <= i < j < k ==> made[i] != made[j]
        invariant forall i :: 0 <= i < k ==>
          made[i].pos == Position(0, 0) && made[i].lastPosition == Position(0, 0) &&
          made[i].visitedPositions == {Position(0, 0)}
      {
        var knot := new Knot();
        made := made + [knot];
      }
      knots := made;
    }

    /** `move_knot` on knot `i`. */
    method MoveKnot(i: nat, mv: Move)
      requires Valid() && i < |knots|
      modifies knots[i]
      ensures State() == KnotAfter(old(State()), i, mv)
    {
      var knot := knots[i];
      if i == 0 {
        knot.lastPosition := knot.pos;
        knot.pos := Update(knot.pos, mv);
        assert State() == old(State())[0 := KnotState(Update(old(knot.pos), mv), old(knot.pos), knot.visitedPositions)];
        return;
      }
      var previous := knots[i - 1];
      if DistanceTo(knot.pos, previous.pos) <= 1 {
        assert State() == old(State());
        return;
      }
      knot.lastPosition := knot.pos;
      if IsDiagonalTo(knot.pos, previous.lastPosition) {
        knot.pos := previous.lastPosition;
      } else {
        knot.pos := Update(knot.pos, mv);
      }
      knot.visitedPositions := knot.visitedPositions + {knot.pos};
      assert State() == old(State())[i := KnotState(knot.pos, old(knot.pos), old(knot.visitedPositions) + {knot.pos})];
    }

    /** `move_rope`: for each of the `n` unit steps, every knot in order. */
    method MoveRope(mv: Move)
      requires Valid()
      modifies set i | 0 <= i < |knots| :: knots[i]
      ensures State() == RopeAfter(old(State()), mv)
    {
      if mv.Unknown? {
        return;
      }
      var unit := UnitOf(mv);
      for step := 0 to mv.n
        invariant Steps(State(), unit, mv.n - step) == RopeAfter(old(State()), mv)
      {
        StepRope(unit);
      }
    }

    /** One unit step of `move_rope`: every knot moved in order. */
    method StepRope(unit: Move)
      requires Valid()
      modifies set i | 0 <= i < |knots| :: knots[i]
      ensures State() == StepFrom(old(State()), 0, unit)
    {
      for i := 0 to |knots|
        invariant StepFrom(State(), i, unit) == StepFrom(old(State()), 0, unit)
      {
        MoveKnot(i, unit);
      }
    }

    /** `get_tail`: the last knot; `null` for a rope without knots, where the
        source panics. */
    method GetTail() returns (tail: Knot?)
      ensures |knots| == 0 ==> tail == null
      ensures |knots| > 0 ==> tail == knots[|knots| - 1]
    {
      if |knots| == 0 {
        return null;
      }
      tail := knots[|knots| - 1];
    }
  }
}
