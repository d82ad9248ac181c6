/** The giant squid bingo of 2021 day 4 (Rust): a first line of drawn
    numbers, then 5x5 boards separated by blank lines. Marking a number on
    a board counts it in its row and in its column, and a board wins when
    one of those counts reaches 5. */
module GiantSquid {
  import opened Text

  /** The side of a board. */
  const SIZE: nat := 5

  /** `Number`: a value and whether it has been drawn. */
  datatype Number = Number(value: nat, marked: bool)

  /** `Number::new`: the string read as a `u32`, not yet marked; `unwrap`
      panics (`None`) when it cannot be read. */
  function NewNumber(s: string): (r: Option<Number>)
    ensures r.Some? <==> ParseU32(s).Some?
    ensures r.Some? ==> r.value.value == ParseU32(s).value && !r.value.marked
  {
    match ParseU32(s)
    case None => None
    case Some(n) => Some(Number(n, false))
  }

  /** A written number reads back as itself, unmarked. */
  lemma NewNumberShown(n: nat)
    requires n <= U32_MAX
    ensures NewNumber(ShowNat(n)) == Some(Number(n, false))
  {
    ParseShowNat(n);
  }

  /** `Number::mark`: the same value, now marked. */
  function Mark(n: Number): (r: Number)
    ensures r.value == n.value && r.marked
  {
    n.(marked := true)
  }

  /** The cells of a board, row by row. */
  type Grid = seq<seq<Option<Number>>>

  /** Five rows of five cells. */
  predicate IsGrid(g: Grid)
  {
    |g| == SIZE && forall r :: 0 <= r < SIZE ==> |g[r]| == SIZE
  }

  /** Every cell holds a number, so no `unwrap` of a cell panics. */
  predicate Full(g: Grid)
  {
    IsGrid(g) && forall r, c :: 0 <= r < SIZE && 0 <= c < SIZE ==> g[r][c].Some?
  }

  /** Column `c` of a grid, top to bottom. */
  function Column(g: Grid, c: nat): (col: seq<Option<Number>>)
    requires IsGrid(g) && c < SIZE
    ensures |col| == SIZE && forall r :: 0 <= r < SIZE ==> col[r] == g[r][c]
  {
    seq(SIZE, r requires 0 <= r < SIZE => g[r][c])
  }

  /** A cell that `==` on `Number` finds equal to a drawn value: equality
      compares values only. */
  predicate IsHit(cell: Option<Number>, v: nat)
  {
    cell.Some? && cell.value.value == v
  }

  /** A cell whose number is marked. */
  predicate IsMarked(cell: Option<Number>)
  {
    cell.Some? && cell.value.marked
  }

  /** How many cells hold the value. */
  function Hits(cells: seq<Option<Number>>, v: nat): (n: nat)
    ensures n <= |cells|
  {
    if cells == [] then 0
    else Hits(cells[..|cells| - 1], v) + (if IsHit(cells[|cells| - 1], v) then 1 else 0)
  }

  /** How many cells are marked. */
  function Marked(cells: seq<Option<Number>>): (n: nat)
    ensures n <= |cells|
  {
    if cells == [] then 0
    else Marked(cells[..|cells| - 1]) + (if IsMarked(cells[|cells| - 1]) then 1 else 0)
  }

  /** A cell after the value is drawn: marked when it holds the value. */
  function MarkCell(cell: Option<Number>, v: nat): (r: Option<Number>)
    ensures r.Some? == cell.Some? && (r.Some? ==> r.value.value == cell.value.value)
    ensures IsHit(cell, v) ==> IsMarked(r)
    ensures !IsHit(cell, v) ==> r == cell
  {
    if IsHit(cell, v) then Some(Mark(cell.value)) else cell
  }

  function MarkCells(cells: seq<Option<Number>>, v: nat): (r: seq<Option<Number>>)
    ensures |r| == |cells| && forall k :: 0 <= k < |cells| ==> r[k] == MarkCell(cells[k], v)
  {
    seq(|cells|, k requires 0 <= k < |cells| => MarkCell(cells[k], v))
  }

  /** The grid after the value is drawn. */
  function MarkAll(g: Grid, v: nat): (r: Grid)
    requires IsGrid(g)
    ensures IsGrid(r) && forall i :: 0 <= i < SIZE ==> r[i] == MarkCells(g[i], v)
    ensures Full(g) ==> Full(r)
  {
    seq(SIZE, i requires 0 <= i < SIZE => MarkCells(g[i], v))
  }

  /** The row counters after the value is drawn: each grows by the cells
      of its row that hold the value. */
  function RowsAfter(rows: seq<nat>, g: Grid, v: nat): (r: seq<nat>)
    requires IsGrid(g) && |rows| == SIZE
    ensures |r| == SIZE && forall i :: 0 <= i < SIZE ==> r[i] == rows[i] + Hits(g[i], v)
  {
    seq(SIZE, i requires 0 <= i < SIZE => rows[i] + Hits(g[i], v))
  }

  /** The column counters after the value is drawn. */
  function ColsAfter(cols: seq<nat>, g: Grid, v: nat): (r: seq<nat>)
    requires IsGrid(g) && |cols| == SIZE
    ensures |r| == SIZE && forall j :: 0 <= j < SIZE ==> r[j] == cols[j] + Hits(Column(g, j), v)
  {
    seq(SIZE, j requires 0 <= j < SIZE => cols[j] + Hits(Column(g, j), v))
  }

  /** `is_winner` on the counters: some row or column counted 5. */
  predicate Wins(rows: seq<nat>, cols: seq<nat>)
  {
    (exists i :: 0 <= i < |rows| && rows[i] == SIZE) || (exists j :: 0 <= j < |cols| && cols[j] == SIZE)
  }

  /** Every cell of a row or column is marked. */
  predicate AllMarkedCells(cells: seq<Option<Number>>)
  {
    forall k :: 0 <= k < |cells| ==> IsMarked(cells[k])
  }

  /** A bingo on the cells: a row or a column all marked. */
  predicate Bingo(g: Grid)
    requires IsGrid(g)
  {
    (exists i :: 0 <= i < SIZE && AllMarkedCells(g[i])) || (exists j :: 0 <= j < SIZE && AllMarkedCells(Column(g, j)))
  }

  /** The counters agree with the cells: each counts the marked cells of
      its row or column. */
  predicate Consistent(g: Grid, rows: seq<nat>, cols: seq<nat>)
  {
    IsGrid(g) && |rows| == SIZE && |cols| == SIZE &&
    (forall i :: 0 <= i < SIZE ==> rows[i] == Marked(g[i])) &&
    (forall j :: 0 <= j < SIZE ==> cols[j] == Marked(Column(g, j)))
  }

  /** The numbers of the cells that are not marked, in order; `unwrap`
      panics on an empty cell. */
  function Unmarked(cells: seq<Option<Number>>): (r: seq<Number>)
    requires forall k :: 0 <= k < |cells| ==> cells[k].Some?
    ensures |r| + Marked(cells) == |cells|
  {
    if cells == [] then []
    else
      var last := |cells| - 1;
      var front := Unmarked(cells[..last]);
      if cells[last].value.marked then front else front + [cells[last].value]
  }

  /** `Unmarked` keeps the unmarked numbers and only those. */
  lemma {:induction false} UnmarkedMembers(cells: seq<Option<Number>>, x: Number)
    requires forall k :: 0 <= k < |cells| ==> cells[k].Some?
    ensures x in Unmarked(cells) <==> !x.marked && Some(x) in cells
  {
    if cells != [] {
      var last := |cells| - 1;
      UnmarkedMembers(cells[..last], x);
      assert cells == cells[..last] + [cells[last]];
    }
  }

  /** The unmarked numbers of the first `n` rows, row after row. */
  function NotMarkedRows(g: Grid, n: nat): (r: seq<Number>)
    requires Full(g) && n <= SIZE
  {
    if n == 0 then [] else NotMarkedRows(g, n - 1) + Unmarked(g[n - 1])
  }

  /** `get_not_marked_numbers`: the cells flattened row after row, the
      marked ones dropped. */
  function NotMarked(g: Grid): (r: seq<Number>)
    requires Full(g)
  {
    NotMarkedRows(g, SIZE)
  }

  /** The marked cells of the first `n` rows. */
  function MarkedRows(g: Grid, n: nat): nat
    requires IsGrid(g) && n <= SIZE
  {
    if n == 0 then 0 else MarkedRows(g, n - 1) + Marked(g[n - 1])
  }

  /** The numbers the first `n` rows leave are their unmarked numbers. */
  lemma {:induction false} NotMarkedRowsMembers(g: Grid, n: nat, x: Number)
    requires Full(g) && n <= SIZE
    ensures x in NotMarkedRows(g, n) <==> !x.marked && exists i :: 0 <= i < n && Some(x) in g[i]
  {
    if n > 0 {
      NotMarkedRowsMembers(g, n - 1, x);
      UnmarkedMembers(g[n - 1], x);
      assert NotMarkedRows(g, n) == NotMarkedRows(g, n - 1) + Unmarked(g[n - 1]);
      assert (exists i :: 0 <= i < n && Some(x) in g[i]) <==>
        (exists i :: 0 <= i < n - 1 && Some(x) in g[i]) || Some(x) in g[n - 1];
    }
  }

  /** The numbers the first `n` rows leave are as many as their cells that
      are not marked. */
  lemma {:induction false} NotMarkedRowsCount(g: Grid, n: nat)
    requires Full(g) && n <= SIZE
    ensures |NotMarkedRows(g, n)| + MarkedRows(g, n) == SIZE * n
  {
    if n > 0 {
      NotMarkedRowsCount(g, n - 1);
      assert |Unmarked(g[n - 1])| + Marked(g[n - 1]) == SIZE;
    }
  }

  /** The numbers `get_not_marked_numbers` gives are the unmarked numbers
      of the cells, and there are as many as the cells that are not
      marked. */
  lemma NotMarkedMembers(g: Grid, x: Number)
    requires Full(g)
    ensures x in NotMarked(g) <==> !x.marked && exists i, j :: 0 <= i < SIZE && 0 <= j < SIZE && g[i][j] == Some(x)
    ensures |NotMarked(g)| + MarkedRows(g, SIZE) == SIZE * SIZE
  {
    NotMarkedRowsMembers(g, SIZE, x);
    NotMarkedRowsCount(g, SIZE);
  }

  /** Once a value is drawn, no number of that value is left to count. */
  lemma DrawnNotCounted(g: Grid, v: nat, x: Number)
    requires Full(g) && x in NotMarked(MarkAll(g, v))
    ensures x.value != v
  {
    NotMarkedMembers(MarkAll(g, v), x);
  }

  /** The sum of the values. */
  function SumOfValues(numbers: seq<Number>): nat
  {
    if numbers == [] then 0 else SumOfValues(numbers[..|numbers| - 1]) + numbers[|numbers| - 1].value
  }

  /** The score of the winning board: the sum of the values left unmarked
      times the value just drawn. */
  function Score(g: Grid, drawn: Number): nat
    requires Full(g)
  {
    SumOfValues(NotMarked(g)) * drawn.value
  }

  /** Marking the value marks exactly the cells that hold it, and drawing
      it again changes nothing more. */
  lemma MarkAllIdempotent(g: Grid, v: nat)
    requires IsGrid(g)
    ensures MarkAll(MarkAll(g, v), v) == MarkAll(g, v)
    ensures forall i, j :: 0 <= i < SIZE && 0 <= j < SIZE ==>
      (IsMarked(MarkAll(g, v)[i][j]) <==> IsMarked(g[i][j]) || IsHit(g[i][j], v))
  {
    var m := MarkAll(g, v);
    forall i | 0 <= i < SIZE ensures MarkAll(m, v)[i] == m[i] {
      assert MarkCells(m[i], v) == m[i];
    }
  }

  /** A column of the marked grid is the marked column. */
  lemma ColumnOfMarked(g: Grid, v: nat, j: nat)
    requires IsGrid(g) && j < SIZE
    ensures Column(MarkAll(g, v), j) == MarkCells(Column(g, j), v)
  {
  }

  /** Marking adds at most the hits to the marked cells, and exactly the
      hits when none of them was marked before. */
  lemma {:induction false} MarkedAfterMark(cells: seq<Option<Number>>, v: nat)
    ensures Marked(MarkCells(cells, v)) <= Marked(cells) + Hits(cells, v)
    ensures (forall k :: 0 <= k < |cells| && IsHit(cells[k], v) ==> !IsMarked(cells[k])) ==>
      Marked(MarkCells(cells, v)) == Marked(cells) + Hits(cells, v)
    ensures Hits(MarkCells(cells, v), v) == Hits(cells, v)
  {
    if cells != [] {
      var last := |cells| - 1;
      var marked := MarkCells(cells, v);
      assert marked[..last] == MarkCells(cells[..last], v);
      assert forall k :: 0 <= k < last ==> cells[..last][k] == cells[k];
      MarkedAfterMark(cells[..last], v);
      assert marked[last] == MarkCell(cells[last], v);
    }
  }

  /** Five of five cells are counted exactly when all of them are
      marked. */
  lemma {:induction false} AllMarked(cells: seq<Option<Number>>)
    ensures Marked(cells) == |cells| <==> AllMarkedCells(cells)
  {
    if cells != [] {
      var last := |cells| - 1;
      AllMarked(cells[..last]);
      assert forall k :: 0 <= k < last ==> cells[..last][k] == cells[k];
    }
  }

  /** Drawing a value that was not drawn before keeps the counters in step
      with the cells. */
  lemma MarkKeepsConsistent(g: Grid, rows: seq<nat>, cols: seq<nat>, v: nat)
    requires Consistent(g, rows, cols)
    requires forall i, j :: 0 <= i < SIZE && 0 <= j < SIZE && IsHit(g[i][j], v) ==> !IsMarked(g[i][j])
    ensures Consistent(MarkAll(g, v), RowsAfter(rows, g, v), ColsAfter(cols, g, v))
  {
    var m := MarkAll(g, v);
    forall i | 0 <= i < SIZE ensures RowsAfter(rows, g, v)[i] == Marked(m[i]) {
      MarkedAfterMark(g[i], v);
    }
    forall j | 0 <= j < SIZE ensures ColsAfter(cols, g, v)[j] == Marked(Column(m, j)) {
      ColumnOfMarked(g, v, j);
      MarkedAfterMark(Column(g, j), v);
    }
  }

  /** `mark_number` counts a value each time it is drawn: drawing a value
      that is on the board twice leaves its row counted beyond the cells
      marked in it. */
  lemma DrawnTwiceOvercounts(g: Grid, rows: seq<nat>, cols: seq<nat>, v: nat, i: nat, j: nat)
    requires Consistent(g, rows, cols) && i < SIZE && j < SIZE && IsHit(g[i][j], v)
    ensures var m := MarkAll(g, v);
      !Consistent(MarkAll(m, v), RowsAfter(RowsAfter(rows, g, v), m, v), ColsAfter(ColsAfter(cols, g, v), m, v))
  {
    var m := MarkAll(g, v);
    MarkAllIdempotent(g, v);
    MarkedAfterMark(g[i], v);
    HitsPositive(g[i], v, j);
    assert RowsAfter(RowsAfter(rows, g, v), m, v)[i] == rows[i] + 2 * Hits(g[i], v);
    assert Marked(MarkAll(m, v)[i]) <= rows[i] + Hits(g[i], v);
  }

  /** A cell that holds the value is counted. */
  lemma {:induction false} HitsPositive(cells: seq<Option<Number>>, v: nat, k: nat)
    requires k < |cells| && IsHit(cells[k], v)
    ensures Hits(cells, v) > 0
  {
    var last := |cells| - 1;
    if k < last {
      assert cells[..last][k] == cells[k];
      HitsPositive(cells[..last], v, k);
    }
  }

  /** With counters in step with the cells, `is_winner` holds exactly when
      a whole row or column is marked. */
  lemma WinsIffBingo(g: Grid, rows: seq<nat>, cols: seq<nat>)
    requires Consistent(g, rows, cols)
    ensures Wins(rows, cols) <==> Bingo(g)
  {
    forall i | 0 <= i < SIZE ensures rows[i] == SIZE <==> AllMarkedCells(g[i]) {
      AllMarked(g[i]);
    }
    forall j | 0 <= j < SIZE ensures cols[j] == SIZE <==> AllMarkedCells(Column(g, j)) {
      AllMarked(Column(g, j));
    }
  }

  /** The cell `Board::new` fills at row `r` and column `c`: the `c`-th
      word of the `r`-th line, or nothing. */
  function CellOf(lines: seq<string>, r: nat, c: nat): Option<Number>
  {
    if r < |lines| && c < |Words(lines[r])| then NewNumber(Words(lines[r])[c]) else None
  }

  /** The text `Board::new` reads without a panic: a line with words must
      be one of the first five and hold at most five words, each a `u32`;
      a word anywhere else indexes out of the grid. */
  predicate CanBuild(stringBoard: string)
  {
    var lines := Lines(stringBoard);
    forall r :: 0 <= r < |lines| ==> CanBuildLine(lines[r], r)
  }

  predicate CanBuildLine(line: string, r: nat)
  {
    var words := Words(line);
    words == [] || (r < SIZE && |words| <= SIZE && forall c :: 0 <= c < |words| ==> NewNumber(words[c]).Some?)
  }

  /** The grid `Board::new` fills, row by row from the lines and column
      by column from their words. */
  function BoardCells(stringBoard: string): (g: Grid)
    ensures IsGrid(g)
  {
    GridOf(Lines(stringBoard))
  }

  /** The grid of the lines of a board. */
  function GridOf(lines: seq<string>): (g: Grid)
    ensures IsGrid(g)
  {
    seq(SIZE, r requires 0 <= r < SIZE => seq(SIZE, c requires 0 <= c < SIZE => CellOf(lines, r, c)))
  }

  /** A board is filled without a mark, and it is full exactly when its
      first five lines hold five words each. */
  lemma BoardCellsFull(stringBoard: string)
    requires CanBuild(stringBoard)
    ensures forall r, c :: 0 <= r < SIZE && 0 <= c < SIZE ==> !IsMarked(BoardCells(stringBoard)[r][c])
    ensures Full(BoardCells(stringBoard)) <==>
      |Lines(stringBoard)| >= SIZE && forall r :: 0 <= r < SIZE ==> |Words(Lines(stringBoard)[r])| == SIZE
  {
    GridOfFull(Lines(stringBoard));
  }

  /** The same, on the lines of the board. */
  lemma GridOfFull(lines: seq<string>)
    requires forall r :: 0 <= r < |lines| ==> CanBuildLine(lines[r], r)
    ensures forall r, c :: 0 <= r < SIZE && 0 <= c < SIZE ==> !IsMarked(GridOf(lines)[r][c])
    ensures Full(GridOf(lines)) <==> |lines| >= SIZE && forall r :: 0 <= r < SIZE ==> |Words(lines[r])| == SIZE
  {
    var g := GridOf(lines);
    forall r, c | 0 <= r < SIZE && 0 <= c < SIZE ensures !IsMarked(g[r][c]) {
      if r < |lines| && c < |Words(lines[r])| {
        assert CanBuildLine(lines[r], r);
      }
    }
    if Full(g) {
      assert g[SIZE - 1][0].Some?;
      forall r | 0 <= r < SIZE ensures |Words(lines[r])| == SIZE {
        assert g[r][SIZE - 1].Some?;
        assert CanBuildLine(lines[r], r);
      }
    }
    if |lines| >= SIZE && forall r :: 0 <= r < SIZE ==> |Words(lines[r])| == SIZE {
      forall r, c | 0 <= r < SIZE && 0 <= c < SIZE ensures g[r][c].Some? {
        assert CanBuildLine(lines[r], r);
      }
    }
  }

  /** A row written as its numbers separated by single spaces. */
  function RowText(row: seq<nat>): string
    requires row != []
  {
    Join(Map(ShowNat, row), ' ')
  }

  /** A board written as its rows on lines of their own. */
  function BoardText(rows: seq<seq<nat>>): string
    requires rows != [] && forall r :: 0 <= r < |rows| ==> rows[r] != []
  {
    Join(seq(|rows|, r requires 0 <= r < |rows| => RowText(rows[r])), '\n')
  }

  /** The words of a written row are its written numbers. */
  lemma RowTextWords(row: seq<nat>)
    requires row != []
    ensures Words(RowText(row)) == Map(ShowNat, row)
    ensures RowText(row) != [] && '\n' !in RowText(row) && '\r' !in RowText(row)
  {
    var shown := Map(ShowNat, row);
    forall k | 0 <= k < |shown| ensures IsWord(shown[k]) && '\n' !in shown[k] && '\r' !in shown[k] {
      var w := shown[k];
      assert forall i :: 0 <= i < |w| ==> IsDigit(w[i]);
    }
    WordsJoin(shown);
    JoinWithout(shown, ' ', '\n');
    JoinWithout(shown, ' ', '\r');
    assert Words(RowText(row)) != [];
  }

  /** The lines of a written board are its written rows. */
  lemma BoardTextLines(rows: seq<seq<nat>>)
    requires rows != [] && forall r :: 0 <= r < |rows| ==> rows[r] != []
    ensures Lines(BoardText(rows)) == seq(|rows|, r requires 0 <= r < |rows| => RowText(rows[r]))
    ensures forall r :: 0 <= r < |rows| ==> Words(Lines(BoardText(rows))[r]) == Map(ShowNat, rows[r])
  {
    var texts := seq(|rows|, r requires 0 <= r < |rows| => RowText(rows[r]));
    forall r | 0 <= r < |rows| ensures Words(texts[r]) == Map(ShowNat, rows[r]) && texts[r] != [] && '\n' !in texts[r] && '\r' !in texts[r] {
      RowTextWords(rows[r]);
    }
    LinesOfJoin(texts);
  }

  /** Five rows of five `u32` values written out are read back by
      `Board::new` as those values, none marked. */
  lemma BoardOfRows(rows: seq<seq<nat>>)
    requires |rows| == SIZE && forall r :: 0 <= r < SIZE ==> |rows[r]| == SIZE
    requires forall r, c :: 0 <= r < SIZE && 0 <= c < SIZE ==> rows[r][c] <= U32_MAX
    ensures CanBuild(BoardText(rows))
    ensures forall r, c :: 0 <= r < SIZE && 0 <= c < SIZE ==> BoardCells(BoardText(rows))[r][c] == Some(Number(rows[r][c], false))
  {
    BoardTextLines(rows);
    BoardOfLines(Lines(BoardText(rows)), rows);
  }

  /** Lines whose words are the written values of the rows. */
  lemma BoardOfLines(lines: seq<string>, rows: seq<seq<nat>>)
    requires |rows| == SIZE && |lines| == SIZE && forall r :: 0 <= r < SIZE ==> |rows[r]| == SIZE
    requires forall r, c :: 0 <= r < SIZE && 0 <= c < SIZE ==> rows[r][c] <= U32_MAX
    requires forall r :: 0 <= r < SIZE ==> Words(lines[r]) == Map(ShowNat, rows[r])
    ensures forall r :: 0 <= r < SIZE ==> CanBuildLine(lines[r], r)
    ensures forall r, c :: 0 <= r < SIZE && 0 <= c < SIZE ==> CellOf(lines, r, c) == Some(Number(rows[r][c], false))
  {
    forall r, c | 0 <= r < SIZE && 0 <= c < SIZE
      ensures NewNumber(Words(lines[r])[c]) == Some(Number(rows[r][c], false))
    {
      NewNumberShown(rows[r][c]);
    }
  }

  /** How many of the first `n` cells hold the value. */
  function HitsUpTo(cells: seq<Option<Number>>, v: nat, n: nat): nat
    requires n <= |cells|
  {
    if n == 0 then 0 else HitsUpTo(cells, v, n - 1) + if IsHit(cells[n - 1], v) then 1 else 0
  }

  lemma {:induction false} HitsUpToAll(cells: seq<Option<Number>>, v: nat, n: nat)
    requires n <= |cells|
    ensures HitsUpTo(cells, v, n) == Hits(cells[..n], v)
  {
    if n > 0 {
      assert cells[..n][..n - 1] == cells[..n - 1];
      HitsUpToAll(cells, v, n - 1);
    } else {
      assert cells[..n] == [];
    }
  }

  /** Once all five rows have gone through `mark_number`, the grid and the
      counters are those of the value drawn. */
  lemma MarkedAll(g: Grid, v: nat, rows0: seq<nat>, cols0: seq<nat>, cells: Grid, rows: seq<nat>, cols: seq<nat>)
    requires IsGrid(g) && |rows0| == SIZE && |cols0| == SIZE && IsGrid(cells) && |rows| == SIZE && |cols| == SIZE
    requires forall i :: 0 <= i < SIZE ==> cells[i] == MarkCells(g[i], v)
    requires forall i :: 0 <= i < SIZE ==> rows[i] == rows0[i] + Hits(g[i], v)
    requires forall j :: 0 <= j < SIZE ==> cols[j] == cols0[j] + HitsUpTo(Column(g, j), v, SIZE)
    ensures cells == MarkAll(g, v) && rows == RowsAfter(rows0, g, v) && cols == ColsAfter(cols0, g, v)
  {
    forall j | 0 <= j < SIZE ensures cols[j] == cols0[j] + Hits(Column(g, j), v) {
      HitsUpToAll(Column(g, j), v, SIZE);
      assert Column(g, j)[..SIZE] == Column(g, j);
    }
  }

  /** `Board`: a 5x5 grid of numbers and a counter for each row and each
      column, updated in place by `mark_number`. */
  class Board {
    const numbers: array2<Option<Number>>
    const rowsLineCount: array<nat>
    const colsLineCount: array<nat>

    /** The grid is 5x5, there are 5 counters of each kind, and the two
        counter arrays are apart. */
    ghost predicate Valid()
    {
      numbers.Length0 == SIZE && numbers.Length1 == SIZE &&
      rowsLineCount.Length == SIZE && colsLineCount.Length == SIZE && rowsLineCount != colsLineCount
    }

    /** `Board::new`: the grid filled from the text, no cell marked and
        every counter at 0; a word out of the grid or not a `u32`
        panics. */
    constructor (stringBoard: string)
      requires CanBuild(stringBoard)
      ensures Valid() && fresh(numbers) && fresh(rowsLineCount) && fresh(colsLineCount)
      ensures Cells() == BoardCells(stringBoard)
      ensures Rows() == [0, 0, 0, 0, 0] && Cols() == [0, 0, 0, 0, 0]
    {
      numbers := new Option<Number>[SIZE, SIZE]((_, _) => None);
      rowsLineCount := new nat[SIZE](_ => 0);
      colsLineCount := new nat[SIZE](_ => 0);
      new;
      var lines := Lines(stringBoard);
      for row := 0 to |lines|
        invariant Valid() && Rows() == [0, 0, 0, 0, 0] && Cols() == [0, 0, 0, 0, 0]
        invariant forall r, c :: 0 <= r < SIZE && 0 <= c < SIZE ==> numbers[r, c] == if r < row then CellOf(lines, r, c) else None
      {
        assert CanBuildLine(lines[row], row);
        FillRow(lines, row);
      }
      forall r | 0 <= r < SIZE ensures Row(r) == BoardCells(stringBoard)[r] {
        assert forall c :: 0 <= c < SIZE ==> numbers[r, c] == CellOf(lines, r, c);
      }
    }

    /** One pass of the outer loop of `Board::new`: the words of line `row`
        put in the grid, column by column. */
    method FillRow(lines: seq<string>, row: nat)
      requires Valid() && row < |lines| && CanBuildLine(lines[row], row)
      requires forall r, c :: 0 <= r < SIZE && 0 <= c < SIZE ==> numbers[r, c] == if r < row then CellOf(lines, r, c) else None
      modifies numbers
      ensures forall r, c :: 0 <= r < SIZE && 0 <= c < SIZE ==> numbers[r, c] == if r < row + 1 then CellOf(lines, r, c) else None
    {
      var words := Words(lines[row]);
      for col := 0 to |words|
        invariant forall r, c :: 0 <= r < SIZE && 0 <= c < SIZE ==>
          numbers[r, c] == if r < row || (r == row && c < col) then CellOf(lines, r, c) else None
      {
        numbers[row, col] := NewNumber(words[col]);
      }
    }

    /** The arrays the board owns. */
    ghost function Repr(): set<object>
    {
      {numbers, rowsLineCount, colsLineCount}
    }

    /** Row `i` of the grid. */
    function Row(i: nat): (row: seq<Option<Number>>)
      reads numbers
      requires Valid() && i < SIZE
      ensures |row| == SIZE && forall j :: 0 <= j < SIZE ==> row[j] == numbers[i, j]
    {
      seq(SIZE, j requires 0 <= j < SIZE reads numbers => numbers[i, j])
    }

    /** The cells, row by row. */
    function Cells(): (g: Grid)
      reads numbers
      requires Valid()
      ensures IsGrid(g) && forall i :: 0 <= i < SIZE ==> g[i] == Row(i)
    {
      seq(SIZE, i requires 0 <= i < SIZE reads numbers => Row(i))
    }

    function Rows(): seq<nat>
      reads rowsLineCount
    {
      rowsLineCount[..]
    }

    function Cols(): seq<nat>
      reads colsLineCount
    {
      colsLineCount[..]
    }

    /** `mark_number`: every cell holding the drawn value is marked, and
        each such cell adds one to its row's and its column's counter,
        whether or not it was marked already; an empty cell panics. */
    method MarkNumber(number: Number)
      requires Valid() && Full(Cells())
      modifies numbers, rowsLineCount, colsLineCount
      ensures Cells() == MarkAll(old(Cells()), number.value)
      ensures Rows() == RowsAfter(old(Rows()), old(Cells()), number.value)
      ensures Cols() == ColsAfter(old(Cols()), old(Cells()), number.value)
    {
      ghost var g, rows0, cols0 := Cells(), Rows(), Cols();
      var v := number.value;
      for r := 0 to SIZE
        invariant MarkedUpTo(g, v, rows0, cols0, r)
      {
        AdvanceRow(g, v, rows0, cols0, r);
      }
      MarkedAll(g, v, rows0, cols0, Cells(), Rows(), Cols());
    }

    /** The first `r` rows of the grid that was `g`, with counters that
        were `rows0` and `cols0`, have gone through `mark_number`. */
    ghost predicate MarkedUpTo(g: Grid, v: nat, rows0: seq<nat>, cols0: seq<nat>, r: nat)
      reads numbers, rowsLineCount, colsLineCount
      requires Valid() && IsGrid(g) && |rows0| == SIZE && |cols0| == SIZE && r <= SIZE
    {
      (forall i :: 0 <= i < SIZE ==> Row(i) == if i < r then MarkCells(g[i], v) else g[i]) &&
      (forall i :: 0 <= i < SIZE ==> rowsLineCount[i] == rows0[i] + if i < r then Hits(g[i], v) else 0) &&
      (forall j :: 0 <= j < SIZE ==> colsLineCount[j] == cols0[j] + HitsUpTo(Column(g, j), v, r))
    }

    /** One pass of the outer loop of `mark_number`. */
    method AdvanceRow(ghost g: Grid, v: nat, ghost rows0: seq<nat>, ghost cols0: seq<nat>, r: nat)
      requires Valid() && Full(g) && |rows0| == SIZE && |cols0| == SIZE && r < SIZE
      requires MarkedUpTo(g, v, rows0, cols0, r)
      modifies numbers, rowsLineCount, colsLineCount
      ensures MarkedUpTo(g, v, rows0, cols0, r + 1)
    {
      assert Row(r) == g[r];
      assert forall j :: 0 <= j < SIZE ==> numbers[r, j] == g[r][j];
      MarkRow(v, r);
    }

    /** The inner loop of `mark_number`, over row `r`. */
    method MarkRow(v: nat, r: nat)
      requires Valid() && r < SIZE
      requires forall j :: 0 <= j < SIZE ==> numbers[r, j].Some?
      modifies numbers, rowsLineCount, colsLineCount
      ensures forall i :: 0 <= i < SIZE && i != r ==> Row(i) == old(Row(i))
      ensures Row(r) == MarkCells(old(Row(r)), v)
      ensures forall i :: 0 <= i < SIZE && i != r ==> rowsLineCount[i] == old(rowsLineCount[i])
      ensures rowsLineCount[r] == old(rowsLineCount[r]) + Hits(old(Row(r)), v)
      ensures forall j :: 0 <= j < SIZE ==> colsLineCount[j] == old(colsLineCount[j]) + if IsHit(old(Row(r))[j], v) then 1 else 0
    {
      ghost var row := Row(r);
      for c := 0 to SIZE
        invariant forall i, j :: 0 <= i < SIZE && 0 <= j < SIZE && i != r ==> numbers[i, j] == old(numbers[i, j])
        invariant forall j :: 0 <= j < c ==> numbers[r, j] == MarkCell(row[j], v)
        invariant forall j :: c <= j < SIZE ==> numbers[r, j] == row[j]
        invariant forall i :: 0 <= i < SIZE && i != r ==> rowsLineCount[i] == old(rowsLineCount[i])
        invariant rowsLineCount[r] == old(rowsLineCount[r]) + HitsUpTo(row, v, c)
        invariant forall j :: 0 <= j < SIZE ==> colsLineCount[j] == old(colsLineCount[j]) + if j < c && IsHit(row[j], v) then 1 else 0
      {
        MarkAt(v, r, c);
      }
      HitsUpToAll(row, v, SIZE);
      assert row[..SIZE] == row;
      assert Row(r) == MarkCells(row, v);
    }

    /** The body of the inner loop of `mark_number`: the cell at row `r`
        and column `c` marked when it holds the value, and its row and
        column counters raised with it. */
    method MarkAt(v: nat, r: nat, c: nat)
      requires Valid() && r < SIZE && c < SIZE && numbers[r, c].Some?
      modifies numbers, rowsLineCount, colsLineCount
      ensures forall i, j :: 0 <= i < SIZE && 0 <= j < SIZE && (i != r || j != c) ==> numbers[i, j] == old(numbers[i, j])
      ensures numbers[r, c] == MarkCell(old(numbers[r, c]), v)
      ensures forall i :: 0 <= i < SIZE && i != r ==> rowsLineCount[i] == old(rowsLineCount[i])
      ensures rowsLineCount[r] == old(rowsLineCount[r]) + if IsHit(old(numbers[r, c]), v) then 1 else 0
      ensures forall j :: 0 <= j < SIZE && j != c ==> colsLineCount[j] == old(colsLineCount[j])
      ensures colsLineCount[c] == old(colsLineCount[c]) + if IsHit(old(numbers[r, c]), v) then 1 else 0
    {
      if numbers[r, c].value.value == v {
        numbers[r, c] := Some(Mark(numbers[r, c].value));
        rowsLineCount[r] := rowsLineCount[r] + 1;
        colsLineCount[c] := colsLineCount[c] + 1;
      }
    }

    /** `is_winner`: the row counters, then the column counters, looked
        through for a 5. */
    method IsWinner() returns (winner: bool)
      requires Valid()
      ensures winner <==> Wins(Rows(), Cols())
    {
      for i := 0 to SIZE
        invariant forall k :: 0 <= k < i ==> rowsLineCount[k] != SIZE
      {
        if rowsLineCount[i] == SIZE {
          assert Rows()[i] == SIZE;
          return true;
        }
      }
      for j := 0 to SIZE
        invariant forall k :: 0 <= k < j ==> colsLineCount[k] != SIZE
      {
        if colsLineCount[j] == SIZE {
          assert Cols()[j] == SIZE;
          return true;
        }
      }
      return false;
    }

    /** `get_number`: the number at a row and a column counted from 1.
        `None` where the source panics: a row or column of 0 underflows,
        one past 5 indexes out of the board, and an empty cell fails the
        `unwrap`. */
    function GetNumber(row: nat, col: nat): (n: Option<Number>)
      reads numbers
      requires Valid()
      ensures n.Some? <==> 1 <= row <= SIZE && 1 <= col <= SIZE && Cells()[row - 1][col - 1].Some?
      ensures n.Some? ==> Cells()[row - 1][col - 1] == n
    {
      if 1 <= row <= SIZE && 1 <= col <= SIZE then numbers[row - 1, col - 1] else None
    }

    /** `get_not_marked_numbers` on the board. */
    function GetNotMarkedNumbers(): (r: seq<Number>)
      reads numbers
      requires Valid() && Full(Cells())
      ensures r == NotMarked(Cells())
    {
      NotMarked(Cells())
    }
  }

  /** A board of the text, looked up by row and column counted from 1, is
      the number written at that word of that line. */
  lemma GetNumberOfText(b: Board, stringBoard: string, row: nat, col: nat)
    requires b.Valid() && b.Cells() == BoardCells(stringBoard)
    requires 1 <= row <= SIZE && 1 <= col <= SIZE && b.numbers[row - 1, col - 1].Some?
    ensures row <= |Lines(stringBoard)| && col <= |Words(Lines(stringBoard)[row - 1])|
    ensures NewNumber(Words(Lines(stringBoard)[row - 1])[col - 1]) == b.GetNumber(row, col)
  {
    assert b.Cells()[row - 1][col - 1] == b.numbers[row - 1, col - 1];
  }

  /** `get_bingo_numbers`: the first line split at commas, each piece a
      `Number`; a text without lines or a piece that is not a `u32`
      panics. */
  function GetBingoNumbers(stringBingo: string): (r: Option<seq<Number>>)
    ensures r.Some? ==> Lines(stringBingo) != [] && |r.value| == |Split(Lines(stringBingo)[0], ',')| && forall k :: 0 <= k < |r.value| ==> !r.value[k].marked
  {
    var lines := Lines(stringBingo);
    if lines == [] then None
    else
      var pieces := Split(lines[0], ',');
      ParseNumbers(pieces);
      ParseAll(NewNumber, pieces)
  }

  /** Pieces read as `Number`s: all of them unmarked, and a failure
      exactly when one of them is not a `u32`. */
  lemma ParseNumbers(pieces: seq<string>)
    ensures ParseAll(NewNumber, pieces).Some? <==> forall k :: 0 <= k < |pieces| ==> ParseU32(pieces[k]).Some?
    ensures ParseAll(NewNumber, pieces).Some? ==> forall k :: 0 <= k < |pieces| ==> !ParseAll(NewNumber, pieces).value[k].marked
  {
    ParseAllSpec(NewNumber, pieces);
    if ParseAll(NewNumber, pieces).Some? {
      forall k | 0 <= k < |pieces| ensures ParseU32(pieces[k]).Some? {
        assert NewNumber(pieces[k]).Some?;
      }
    } else {
      var k :| 0 <= k < |pieces| && NewNumber(pieces[k]).None?;
      assert ParseU32(pieces[k]).None?;
    }
  }

  /** `get_bingo_numbers` panics exactly when the text has no line or a
      piece of its first line is not a `u32`. */
  lemma GetBingoNumbersPanics(stringBingo: string)
    ensures GetBingoNumbers(stringBingo).None? <==> (Lines(stringBingo) == [] ||
      exists k :: 0 <= k < |Split(Lines(stringBingo)[0], ',')| && ParseU32(Split(Lines(stringBingo)[0], ',')[k]).None?)
  {
    if Lines(stringBingo) != [] {
      var pieces := Split(Lines(stringBingo)[0], ',');
      ParseNumbers(pieces);
      assert GetBingoNumbers(stringBingo) == ParseAll(NewNumber, pieces);
      if GetBingoNumbers(stringBingo).None? {
        var k :| 0 <= k < |pieces| && ParseU32(pieces[k]).None?;
        assert 0 <= k < |Split(Lines(stringBingo)[0], ',')| && ParseU32(Split(Lines(stringBingo)[0], ',')[k]).None?;
      }
    }
  }

  /** The values, unmarked. */
  function Fresh(values: seq<nat>): (r: seq<Number>)
    ensures |r| == |values| && forall k :: 0 <= k < |values| ==> r[k] == Number(values[k], false)
  {
    seq(|values|, k requires 0 <= k < |values| => Number(values[k], false))
  }

  /** Written values are read back as themselves, unmarked. */
  lemma {:induction false} ParseShown(values: seq<nat>)
    requires forall k :: 0 <= k < |values| ==> values[k] <= U32_MAX
    ensures ParseAll(NewNumber, Map(ShowNat, values)) == Some(Fresh(values))
  {
    if values != [] {
      var last := |values| - 1;
      assert Map(ShowNat, values)[..last] == Map(ShowNat, values[..last]);
      ParseShown(values[..last]);
      NewNumberShown(values[last]);
      assert Fresh(values[..last]) + [Number(values[last], false)] == Fresh(values);
    }
  }

  /** Values written out and separated by commas are read back in order,
      unmarked. */
  lemma ParseShownNumbers(values: seq<nat>)
    requires values != [] && forall k :: 0 <= k < |values| ==> values[k] <= U32_MAX
    ensures ParseAll(NewNumber, Split(Join(Map(ShowNat, values), ','), ',')) == Some(Fresh(values))
  {
    var shown := Map(ShowNat, values);
    forall k | 0 <= k < |shown| ensures ',' !in shown[k] {
      var w := shown[k];
      assert w == ShowNat(values[k]);
      assert forall i :: 0 <= i < |w| ==> IsDigit(w[i]);
    }
    SplitJoin(shown, ',');
    ParseShown(values);
  }

  /** The values written out and separated by commas make one line. */
  lemma ShownNumbersLine(values: seq<nat>)
    requires values != []
    ensures '\n' !in Join(Map(ShowNat, values), ',') && '\r' !in Join(Map(ShowNat, values), ',')
  {
    var shown := Map(ShowNat, values);
    forall k | 0 <= k < |shown| ensures '\n' !in shown[k] && '\r' !in shown[k] {
      var w := shown[k];
      assert w == ShowNat(values[k]);
      assert forall i :: 0 <= i < |w| ==> IsDigit(w[i]);
    }
    JoinWithout(shown, ',', '\n');
    JoinWithout(shown, ',', '\r');
  }

  /** Values written on the first line, separated by commas, are read back
      in order and unmarked, whatever the lines after it hold. */
  lemma BingoNumbersOfText(values: seq<nat>, rest: string)
    requires values != [] && forall k :: 0 <= k < |values| ==> values[k] <= U32_MAX
    ensures GetBingoNumbers(Join(Map(ShowNat, values), ',') + "\n" + rest) == Some(Fresh(values))
  {
    var first := Join(Map(ShowNat, values), ',');
    ShownNumbersLine(values);
    LinesFirst(first, rest);
    ParseShownNumbers(values);
  }

  /** The loop of `get_bingo_boards` over the lines left, with the text
      gathered so far: a blank line closes the board gathered, trimmed, and
      the buffer starts again with that blank line's line feed; any other
      line is gathered with a line feed. */
  function Scan(lines: seq<string>, buffer: string): seq<string>
    decreases |lines|
  {
    if lines == [] then []
    else if lines[0] == [] then [Trim(buffer)] + Scan(lines[1..], "\n")
    else Scan(lines[1..], buffer + lines[0] + "\n")
  }

  /** The lines `get_bingo_boards` walks through: those of the text with a
      blank one pushed at the end, the first two skipped. */
  function BoardLines(stringBingo: string): seq<string>
  {
    var lines := Lines(stringBingo) + [""];
    if |lines| <= 2 then [] else lines[2..]
  }

  /** The text of each board `get_bingo_boards` builds, in order. */
  function BoardTexts(stringBingo: string): seq<string>
  {
    Scan(BoardLines(stringBingo), "")
  }

  /** How many lines are blank. */
  function BlankLines(lines: seq<string>): nat
  {
    if lines == [] then 0 else (if lines[0] == [] then 1 else 0) + BlankLines(lines[1..])
  }

  /** One board for each blank line, the one pushed at the end
      included. */
  lemma {:induction false} ScanCount(lines: seq<string>, buffer: string)
    ensures |Scan(lines, buffer)| == BlankLines(lines)
    decreases |lines|
  {
    if lines != [] {
      ScanCount(lines[1..], if lines[0] == [] then "\n" else buffer + lines[0] + "\n");
    }
  }

  /** The text of a block of lines, each closed by a line feed. */
  function Block(rows: seq<string>): string
  {
    if rows == [] then [] else rows[0] + "\n" + Block(rows[1..])
  }

  /** Blocks of lines, each followed by a blank line. */
  function Blocked(blocks: seq<seq<string>>): seq<string>
  {
    if blocks == [] then [] else blocks[0] + [""] + Blocked(blocks[1..])
  }

  /** Gathering a block up to its blank line closes it as one board. */
  lemma {:induction false} ScanBlock(rows: seq<string>, rest: seq<string>, buffer: string)
    requires forall k :: 0 <= k < |rows| ==> rows[k] != []
    ensures Scan(rows + [""] + rest, buffer) == [Trim(buffer + Block(rows))] + Scan(rest, "\n")
    decreases |rows|
  {
    if rows == [] {
      assert [] + [""] + rest == [""] + rest;
      assert buffer + Block(rows) == buffer;
    } else {
      assert (rows + [""] + rest)[1..] == rows[1..] + [""] + rest;
      ScanBlock(rows[1..], rest, buffer + rows[0] + "\n");
      assert buffer + rows[0] + "\n" + Block(rows[1..]) == buffer + Block(rows);
    }
  }

  /** A line feed before a text is trimmed away with the rest of its
      leading whitespace. */
  lemma TrimLineFeed(s: string)
    ensures Trim("\n" + s) == Trim(s)
  {
    assert ("\n" + s)[1..] == s;
  }

  /** The texts of the blocks, trimmed. */
  function TrimmedBlocks(blocks: seq<seq<string>>): (r: seq<string>)
    ensures |r| == |blocks| && forall b :: 0 <= b < |blocks| ==> r[b] == Trim(Block(blocks[b]))
  {
    if blocks == [] then [] else [Trim(Block(blocks[0]))] + TrimmedBlocks(blocks[1..])
  }

  /** Blocks separated by blank lines make one board each, the text of
      the block trimmed. */
  lemma {:induction false} ScanBlocks(blocks: seq<seq<string>>, buffer: string)
    requires buffer == "" || buffer == "\n"
    requires forall b, k :: 0 <= b < |blocks| && 0 <= k < |blocks[b]| ==> blocks[b][k] != []
    ensures Scan(Blocked(blocks), buffer) == TrimmedBlocks(blocks)
    decreases |blocks|
  {
    if blocks != [] {
      var rest := Blocked(blocks[1..]);
      ScanBlock(blocks[0], rest, buffer);
      TrimLineFeed(Block(blocks[0]));
      assert Trim(buffer + Block(blocks[0])) == Trim(Block(blocks[0])) by {
        if buffer == "" {
          assert buffer + Block(blocks[0]) == Block(blocks[0]);
        }
      }
      ScanBlocks(blocks[1..], "\n");
    }
  }

  /** A text made of a line of numbers, a blank line and blocks of board
      lines separated by blank lines gives one board per block. */
  lemma BoardTextsOfBlocks(stringBingo: string, header: string, blocks: seq<seq<string>>)
    requires Lines(stringBingo) + [""] == [header, ""] + Blocked(blocks)
    requires forall b, k :: 0 <= b < |blocks| && 0 <= k < |blocks[b]| ==> blocks[b][k] != []
    ensures |BoardTexts(stringBingo)| == |blocks|
    ensures forall b :: 0 <= b < |blocks| ==> BoardTexts(stringBingo)[b] == Trim(Block(blocks[b]))
  {
    assert BoardLines(stringBingo) == Blocked(blocks);
    ScanBlocks(blocks, "");
  }

  /** The block of a board's written rows, trimmed, is the board's
      text. */
  lemma {:induction false} BlockOfRows(rows: seq<seq<nat>>)
    requires rows != [] && forall r :: 0 <= r < |rows| ==> rows[r] != []
    ensures Trim(Block(seq(|rows|, r requires 0 <= r < |rows| => RowText(rows[r])))) == BoardText(rows)
  {
    var texts := seq(|rows|, r requires 0 <= r < |rows| => RowText(rows[r]));
    forall r | 0 <= r < |rows| ensures texts[r] != [] {
      RowTextEnds(rows[r]);
    }
    BlockIsJoin(texts);
    var text := BoardText(rows);
    RowTextEnds(rows[0]);
    RowTextEnds(rows[|rows| - 1]);
    JoinEnds(texts, '\n');
    assert text + "\n" == Block(texts);
    TrimEndLineFeed(text);
  }

  /** A block is its lines joined by line feeds, with a last line feed. */
  lemma {:induction false} BlockIsJoin(rows: seq<string>)
    requires rows != []
    ensures Block(rows) == Join(rows, '\n') + "\n"
  {
    if |rows| > 1 {
      BlockIsJoin(rows[1..]);
    } else {
      assert Block(rows[1..]) == [];
    }
  }

  /** A written row starts and ends with a digit. */
  lemma RowTextEnds(row: seq<nat>)
    requires row != []
    ensures RowText(row) != [] && IsDigit(RowText(row)[0]) && IsDigit(RowText(row)[|RowText(row)| - 1])
  {
    var shown := Map(ShowNat, row);
    forall k | 0 <= k < |shown| ensures shown[k] != [] && IsDigit(shown[k][0]) && IsDigit(shown[k][|shown[k]| - 1]) {
      var w := shown[k];
      assert w == ShowNat(row[k]);
      assert forall i :: 0 <= i < |w| ==> IsDigit(w[i]);
    }
    JoinEnds(shown, ' ');
  }

  /** Joined parts start with the first part's first character and end
      with the last part's last character. */
  lemma {:induction false} JoinEnds(parts: seq<string>, sep: char)
    requires parts != [] && forall k :: 0 <= k < |parts| ==> parts[k] != []
    ensures Join(parts, sep) != [] && Join(parts, sep)[0] == parts[0][0]
    ensures Join(parts, sep)[|Join(parts, sep)| - 1] == parts[|parts| - 1][|parts[|parts| - 1]| - 1]
  {
    if |parts| > 1 {
      JoinEnds(parts[1..], sep);
    }
  }

  /** Trimming a text that starts and ends with something other than
      whitespace, followed by a line feed, gives the text back. */
  lemma TrimEndLineFeed(s: string)
    requires s != [] && !IsSpace(s[0]) && !IsSpace(s[|s| - 1])
    ensures Trim(s + "\n") == s
  {
    assert TrimStart(s + "\n") == s + "\n";
    assert (s + "\n")[..|s|] == s;
    assert TrimEnd(s + "\n") == TrimEnd(s);
    assert TrimEnd(s) == s;
  }

  /** A bingo text written out in order, the numbers on the first line,
      then each board after a blank line, gives back those numbers and
      boards that hold those rows. */
  lemma BingoOfText(values: seq<nat>, boards: seq<seq<seq<nat>>>, stringBingo: string)
    requires values != [] && forall k :: 0 <= k < |values| ==> values[k] <= U32_MAX
    requires forall b :: 0 <= b < |boards| ==> |boards[b]| == SIZE && forall r :: 0 <= r < SIZE ==> |boards[b][r]| == SIZE
    requires forall b, r, c :: 0 <= b < |boards| && 0 <= r < SIZE && 0 <= c < SIZE ==> boards[b][r][c] <= U32_MAX
    requires Lines(stringBingo) + [""] == [Join(Map(ShowNat, values), ','), ""] + Blocked(seq(|boards|, b requires 0 <= b < |boards| => RowTexts(boards[b])))
    ensures |BoardTexts(stringBingo)| == |boards|
    ensures forall b :: 0 <= b < |boards| ==> BoardTexts(stringBingo)[b] == BoardText(boards[b])
    ensures forall b, r, c :: 0 <= b < |boards| && 0 <= r < SIZE && 0 <= c < SIZE ==>
      CanBuild(BoardTexts(stringBingo)[b]) && BoardCells(BoardTexts(stringBingo)[b])[r][c] == Some(Number(boards[b][r][c], false))
  {
    var blocks := seq(|boards|, b requires 0 <= b < |boards| => RowTexts(boards[b]));
    forall b, k | 0 <= b < |blocks| && 0 <= k < |blocks[b]| ensures blocks[b][k] != [] {
      RowTextEnds(boards[b][k]);
    }
    BoardTextsOfBlocks(stringBingo, Join(Map(ShowNat, values), ','), blocks);
    forall b | 0 <= b < |boards| ensures Trim(Block(blocks[b])) == BoardText(boards[b]) {
      BlockOfRows(boards[b]);
    }
    forall b | 0 <= b < |boards|
      ensures CanBuild(BoardText(boards[b]))
      ensures forall r, c :: 0 <= r < SIZE && 0 <= c < SIZE ==> BoardCells(BoardText(boards[b]))[r][c] == Some(Number(boards[b][r][c], false))
    {
      BoardOfRows(boards[b]);
    }
  }

  /** The written rows of a board. */
  function RowTexts(rows: seq<seq<nat>>): seq<string>
    requires forall r :: 0 <= r < |rows| ==> rows[r] != []
  {
    seq(|rows|, r requires 0 <= r < |rows| => RowText(rows[r]))
  }

  /** No two boards share an array. */
  ghost predicate Apart(boards: seq<Board>)
  {
    forall k, l :: 0 <= k < |boards| && 0 <= l < |boards| && k != l ==> boards[k].Repr() !! boards[l].Repr()
  }

  /** The arrays of all the boards. */
  ghost function Footprint(boards: seq<Board>): set<object>
  {
    var grids: set<object> := set k | 0 <= k < |boards| :: boards[k].numbers;
    var rows: set<object> := set k | 0 <= k < |boards| :: boards[k].rowsLineCount;
    var cols: set<object> := set k | 0 <= k < |boards| :: boards[k].colsLineCount;
    grids + rows + cols
  }

  /** Each array of the boards belongs to one of them. */
  lemma FootprintMember(boards: seq<Board>, o: object)
    requires o in Footprint(boards)
    ensures exists k :: 0 <= k < |boards| && o in boards[k].Repr()
  {
  }

  /** The boards hold the texts' grids, nothing marked and no counts. */
  ghost predicate Built(boards: seq<Board>, texts: seq<string>)
    reads Footprint(boards)
  {
    |boards| == |texts| &&
    forall k :: 0 <= k < |boards| ==> BuiltFrom(boards[k], texts[k])
  }

  ghost predicate BuiltFrom(b: Board, text: string)
    reads b.numbers, b.rowsLineCount, b.colsLineCount
  {
    b.Valid() && b.Cells() == BoardCells(text) && b.Rows() == [0, 0, 0, 0, 0] && b.Cols() == [0, 0, 0, 0, 0]
  }

  /** Every text is one a board can be built from. */
  predicate Buildable(texts: seq<string>)
  {
    forall k :: 0 <= k < |texts| ==> CanBuild(texts[k])
  }

  /** A new board whose arrays are not those of the others keeps the
      boards built and apart. */
  lemma AddBoard(built: seq<Board>, done: seq<string>, board: Board, text: string)
    requires Built(built, done) && Apart(built) && BuiltFrom(board, text)
    requires forall k :: 0 <= k < |built| ==> built[k].Repr() !! board.Repr()
    ensures Built(built + [board], done + [text]) && Apart(built + [board])
  {
  }

  /** A text a board can be built from, after others, keeps them all
      buildable. */
  lemma BuildableAppend(done: seq<string>, text: string)
    requires Buildable(done) && CanBuild(text)
    ensures Buildable(done + [text])
  {
    forall k | 0 <= k < |done| + 1 ensures CanBuild((done + [text])[k]) {
      if k < |done| {
        assert (done + [text])[k] == done[k];
      }
    }
  }

  /** `Board::new` on a text, the new board added after the others. */
  method AppendBoard(built: seq<Board>, ghost done: seq<string>, text: string) returns (r: seq<Board>)
    requires CanBuild(text) && Buildable(done) && Built(built, done) && Apart(built)
    ensures |r| == |built| + 1 && r[..|built|] == built && fresh(r[|built|].Repr())
    ensures Buildable(done + [text]) && Built(r, done + [text]) && Apart(r)
  {
    var board := new Board(text);
    AddBoard(built, done, board, text);
    BuildableAppend(done, text);
    r := built + [board];
  }

  /** One line of the loop of `get_bingo_boards`: a blank line ends the
      text of a board, any other line goes into the buffer. */
  lemma ScanStep(rest: seq<string>, buffer: string, done: seq<string>)
    requires rest != []
    ensures rest[0] == [] ==>
      done + Scan(rest, buffer) == (done + [Trim(buffer)]) + Scan(rest[1..], "" + rest[0] + "\n")
    ensures rest[0] != [] ==>
      done + Scan(rest, buffer) == done + Scan(rest[1..], buffer + rest[0] + "\n")
  {
    if rest[0] == [] {
      assert "" + rest[0] + "\n" == "\n";
      assert done + ([Trim(buffer)] + Scan(rest[1..], "\n")) == (done + [Trim(buffer)]) + Scan(rest[1..], "\n");
    }
  }

  /** `get_bingo_boards`: the lines of the text with a blank one pushed at
      the end, the first two skipped, the rest gathered into boards. */
  method GetBingoBoards(stringBingo: string) returns (boards: Option<seq<Board>>)
    ensures boards.Some? <==> Buildable(BoardTexts(stringBingo))
    ensures boards.Some? ==> Built(boards.value, BoardTexts(stringBingo)) && Apart(boards.value)
    ensures boards.Some? ==> fresh(Footprint(boards.value))
  {
    var lines := Lines(stringBingo) + [""];
    var rest := if |lines| <= 2 then [] else lines[2..];
    assert BoardTexts(stringBingo) == Scan(rest, "");
    boards := BuildBoards(rest);
  }

  /** The loop of `get_bingo_boards`: a buffer gathers the lines, each
      followed by a line feed, until a blank line turns its trimmed text
      into a board and starts it again with a line feed; `Board::new`
      panics on a block it cannot read. */
  method BuildBoards(lines: seq<string>) returns (boards: Option<seq<Board>>)
    ensures boards.Some? <==> Buildable(Scan(lines, ""))
    ensures boards.Some? ==> Built(boards.value, Scan(lines, "")) && Apart(boards.value)
    ensures boards.Some? ==> fresh(Footprint(boards.value))
  {
    var buffer: string := "";
    var built: seq<Board> := [];
    ghost var done: seq<string> := [];
    var rest := lines;
    while rest != []
      invariant Scan(lines, "") == done + Scan(rest, buffer)
      invariant Buildable(done) && Built(built, done) && Apart(built)
      invariant forall k :: 0 <= k < |built| ==> fresh(built[k].Repr())
    {
      var line := rest[0];
      ScanStep(rest, buffer, done);
      if line == [] {
        var text := Trim(buffer);
        if !CanBuild(text) {
          assert Scan(lines, "")[|done|] == text;
          return None;
        }
        built := AppendBoard(built, done, text);
        done := done + [text];
        buffer := "";
      }
      buffer := buffer + line + "\n";
      rest := rest[1..];
    }
    assert done + [] == done;
    forall o | o in Footprint(built) ensures fresh(o) {
      FootprintMember(built, o);
    }
    return Some(built);
  }

  /** Every board has the sizes of a board. */
  ghost predicate AllValid(boards: seq<Board>)
  {
    forall k :: 0 <= k < |boards| ==> boards[k].Valid()
  }

  /** A board as a value: its grid and its two rows of counters. */
  datatype State = State(cells: Grid, rows: seq<nat>, cols: seq<nat>)

  predicate IsState(st: State)
  {
    IsGrid(st.cells) && |st.rows| == SIZE && |st.cols| == SIZE
  }

  predicate AllStates(states: seq<State>)
  {
    forall k :: 0 <= k < |states| ==> IsState(states[k])
  }

  /** The boards hold the states, one for one. */
  ghost predicate Holds(boards: seq<Board>, states: seq<State>)
    reads Footprint(boards)
  {
    |boards| == |states| && forall k :: 0 <= k < |boards| ==> HoldsOne(boards[k], states[k])
  }

  ghost predicate HoldsOne(b: Board, st: State)
    reads b.numbers, b.rowsLineCount, b.colsLineCount
  {
    b.Valid() && b.Cells() == st.cells && b.Rows() == st.rows && b.Cols() == st.cols
  }

  /** `mark_number` on a board as a value. */
  function Draw(st: State, v: nat): (r: State)
    requires IsState(st)
    ensures IsState(r) && (Full(st.cells) ==> Full(r.cells))
  {
    State(MarkAll(st.cells, v), RowsAfter(st.rows, st.cells, v), ColsAfter(st.cols, st.cells, v))
  }

  /** The board that won, the number that made it win and the score. */
  datatype Win = Win(board: nat, number: Number, score: nat)

  /** How a game ends: a panic, the numbers running out, or a winner. */
  datatype GameResult = Panicked | NoWinner | Won(win: Win)

  datatype Outcome = Outcome(result: GameResult, states: seq<State>)

  /** The loops of `execute`, from number `i` and board `j` on: each number
      is marked on each board in turn, and the first board that wins after
      its marking ends the game with its unmarked numbers' sum times the
      number; a board with an empty cell panics in `mark_number`. */
  function PlayFrom(states: seq<State>, numbers: seq<Number>, i: nat, j: nat): Outcome
    requires AllStates(states) && i <= |numbers| && j <= |states|
    decreases |numbers| - i, |states| - j
  {
    if i == |numbers| then Outcome(NoWinner, states)
    else if j == |states| then PlayFrom(states, numbers, i + 1, 0)
    else if !Full(states[j].cells) then Outcome(Panicked, states)
    else
      var next := states[j := Draw(states[j], numbers[i].value)];
      if Wins(next[j].rows, next[j].cols) then Outcome(Won(Win(j, numbers[i], Score(next[j].cells, numbers[i]))), next)
      else PlayFrom(next, numbers, i, j + 1)
  }

  /** The winner is one of the boards, it wins on one of the numbers still
      to draw, one of its counters is at 5, and its score is the sum of its
      unmarked numbers times that number. */
  lemma {:induction false} PlayWinner(states: seq<State>, numbers: seq<Number>, i: nat, j: nat)
    requires AllStates(states) && i <= |numbers| && j <= |states|
    ensures var o := PlayFrom(states, numbers, i, j);
      |o.states| == |states| && AllStates(o.states)
    ensures var o := PlayFrom(states, numbers, i, j);
      o.result.Won? ==>
        var w := o.result.win;
        w.board < |states| && w.number in numbers[i..] && Full(o.states[w.board].cells) &&
        Wins(o.states[w.board].rows, o.states[w.board].cols) &&
        w.score == SumOfValues(NotMarked(o.states[w.board].cells)) * w.number.value
    decreases |numbers| - i, |states| - j
  {
    if i == |numbers| {
    } else if j == |states| {
      PlayWinner(states, numbers, i + 1, 0);
      var o := PlayFrom(states, numbers, i, j);
      if o.result.Won? {
        assert o.result.win.number in numbers[i + 1..];
        assert numbers[i + 1..] == numbers[i..][1..];
      }
    } else if Full(states[j].cells) {
      var next := states[j := Draw(states[j], numbers[i].value)];
      if !Wins(next[j].rows, next[j].cols) {
        PlayWinner(next, numbers, i, j + 1);
      } else {
        assert numbers[i] == numbers[i..][0];
      }
    }
  }

  /** When every board is full, the game does not panic. */
  lemma {:induction false} PlayFullNoPanic(states: seq<State>, numbers: seq<Number>, i: nat, j: nat)
    requires AllStates(states) && i <= |numbers| && j <= |states|
    requires forall k :: 0 <= k < |states| ==> Full(states[k].cells)
    ensures PlayFrom(states, numbers, i, j).result != Panicked
    decreases |numbers| - i, |states| - j
  {
    if i == |numbers| {
    } else if j == |states| {
      PlayFullNoPanic(states, numbers, i + 1, 0);
    } else {
      var next := states[j := Draw(states[j], numbers[i].value)];
      if !Wins(next[j].rows, next[j].cols) {
        PlayFullNoPanic(next, numbers, i, j + 1);
      }
    }
  }

  /** No value is drawn twice. */
  predicate DistinctValues(numbers: seq<Number>)
  {
    forall a, b :: 0 <= a < b < |numbers| ==> numbers[a].value != numbers[b].value
  }

  /** The values of the first `i` numbers. */
  function DrawnValues(numbers: seq<Number>, i: nat): set<nat>
    requires i <= |numbers|
  {
    set k | 0 <= k < i :: numbers[k].value
  }

  /** The counters agree with the marks, and every marked cell holds a
      value already drawn for that board. */
  predicate Tracked(st: State, drawn: set<nat>)
  {
    Consistent(st.cells, st.rows, st.cols) &&
    forall r, c :: 0 <= r < SIZE && 0 <= c < SIZE && IsMarked(st.cells[r][c]) ==> st.cells[r][c].value.value in drawn
  }

  /** Before number `i` reaches board `j`: the boards before `j` have seen
      it, the others have not. */
  predicate AllTracked(states: seq<State>, numbers: seq<Number>, i: nat, j: nat)
    requires i < |numbers|
  {
    forall k :: 0 <= k < |states| ==>
      Tracked(states[k], if k < j then DrawnValues(numbers, i + 1) else DrawnValues(numbers, i))
  }

  /** Drawing a value not drawn before keeps a board tracked. */
  lemma DrawTracked(st: State, drawn: set<nat>, v: nat)
    requires Tracked(st, drawn) && v !in drawn
    ensures Tracked(Draw(st, v), drawn + {v})
  {
    MarkKeepsConsistent(st.cells, st.rows, st.cols, v);
    MarkAllIdempotent(st.cells, v);
  }

  /** With no value drawn twice, and counters that agree with the marks of
      boards marked only with values already drawn, the board declared the
      winner has a row or a column all marked. */
  lemma {:induction false} PlayBingo(states: seq<State>, numbers: seq<Number>, i: nat, j: nat)
    requires AllStates(states) && i <= |numbers| && j <= |states| && DistinctValues(numbers)
    requires i < |numbers| ==> AllTracked(states, numbers, i, j)
    ensures var o := PlayFrom(states, numbers, i, j);
      o.result.Won? ==>
        o.result.win.board < |o.states| && IsState(o.states[o.result.win.board]) && Bingo(o.states[o.result.win.board].cells)
    decreases |numbers| - i, |states| - j
  {
    if i == |numbers| {
    } else if j == |states| {
      if i + 1 < |numbers| {
        forall k | 0 <= k < |states| ensures Tracked(states[k], DrawnValues(numbers, i + 1)) {
          assert Tracked(states[k], DrawnValues(numbers, i + 1));
        }
      }
      PlayBingo(states, numbers, i + 1, 0);
    } else if Full(states[j].cells) {
      var v := numbers[i].value;
      assert v !in DrawnValues(numbers, i);
      assert DrawnValues(numbers, i + 1) == DrawnValues(numbers, i) + {v};
      DrawTracked(states[j], DrawnValues(numbers, i), v);
      var next := states[j := Draw(states[j], v)];
      if Wins(next[j].rows, next[j].cols) {
        WinsIffBingo(next[j].cells, next[j].rows, next[j].cols);
      } else {
        PlayBingo(next, numbers, i, j + 1);
      }
    }
  }

  /** `mark_number` on one of the boards leaves the others as they were. */
  method MarkBoard(boards: seq<Board>, j: nat, number: Number, ghost states: seq<State>)
    requires Holds(boards, states) && Apart(boards) && j < |boards| && IsState(states[j]) && Full(states[j].cells)
    modifies boards[j].Repr()
    ensures Holds(boards, states[j := Draw(states[j], number.value)])
  {
    boards[j].MarkNumber(number);
    forall k | 0 <= k < |boards| && k != j
      ensures HoldsOne(boards[k], states[k])
    {
      assert boards[k].Repr() !! boards[j].Repr();
    }
  }

  /** The loops of `execute` on the boards themselves, which hold the
      states the game starts from. */
  method Play(numbers: seq<Number>, boards: seq<Board>, ghost states: seq<State>) returns (result: GameResult)
    requires AllStates(states) && Holds(boards, states) && Apart(boards)
    modifies Footprint(boards)
    ensures result == PlayFrom(states, numbers, 0, 0).result
  {
    ghost var current := states;
    for i := 0 to |numbers|
      invariant AllStates(current) && Holds(boards, current)
      invariant PlayFrom(states, numbers, 0, 0) == PlayFrom(current, numbers, i, 0)
    {
      var ended;
      ended, current := PlayRound(numbers, i, boards, current);
      if ended.Some? {
        return ended.value;
      }
    }
    return NoWinner;
  }

  /** The inner loop of `execute`: number `i` marked on each board in
      turn, `Some` of how the game ended when it ends there. */
  method PlayRound(numbers: seq<Number>, i: nat, boards: seq<Board>, ghost states: seq<State>)
    returns (ended: Option<GameResult>, ghost after: seq<State>)
    requires AllStates(states) && Holds(boards, states) && Apart(boards) && i < |numbers|
    modifies Footprint(boards)
    ensures ended.Some? ==> ended.value == PlayFrom(states, numbers, i, 0).result
    ensures ended.None? ==> AllStates(after) && Holds(boards, after) && PlayFrom(states, numbers, i, 0) == PlayFrom(after, numbers, i + 1, 0)
  {
    after := states;
    for j := 0 to |boards|
      invariant AllStates(after) && Holds(boards, after)
      invariant PlayFrom(states, numbers, i, 0) == PlayFrom(after, numbers, i, j)
    {
      ended, after := PlayBoard(numbers, i, boards, j, after);
      if ended.Some? {
        return;
      }
    }
    return None, after;
  }

  /** The body of the inner loop of `execute`: number `i` marked on board
      `j`, and the game over if that board wins. */
  method PlayBoard(numbers: seq<Number>, i: nat, boards: seq<Board>, j: nat, ghost states: seq<State>)
    returns (ended: Option<GameResult>, ghost after: seq<State>)
    requires AllStates(states) && Holds(boards, states) && Apart(boards) && i < |numbers| && j < |boards|
    modifies Footprint(boards)
    ensures ended.Some? ==> ended.value == PlayFrom(states, numbers, i, j).result
    ensures ended.None? ==> AllStates(after) && Holds(boards, after) && PlayFrom(states, numbers, i, j) == PlayFrom(after, numbers, i, j + 1)
  {
    var board := boards[j];
    if !Full(board.Cells()) {
      return Some(Panicked), states;
    }
    after := states[j := Draw(states[j], numbers[i].value)];
    MarkBoard(boards, j, numbers[i], states);
    var winner := board.IsWinner();
    if winner {
      var notMarked := board.GetNotMarkedNumbers();
      var sum := SumOfValues(notMarked);
      var score := sum * numbers[i].value;
      assert score == Score(after[j].cells, numbers[i]);
      return Some(Won(Win(j, numbers[i], score))), after;
    }
    return None, after;
  }

  /** The boards `get_bingo_boards` builds, as values. */
  function InitialStates(texts: seq<string>): (r: seq<State>)
    ensures |r| == |texts| && AllStates(r)
  {
    seq(|texts|, k requires 0 <= k < |texts| => State(BoardCells(texts[k]), [0, 0, 0, 0, 0], [0, 0, 0, 0, 0]))
  }

  /** `execute` without its output: the numbers, the boards, then the
      game. */
  function Game(contents: string): GameResult
  {
    match GetBingoNumbers(contents)
    case None => Panicked
    case Some(numbers) =>
      if !Buildable(BoardTexts(contents)) then Panicked
      else PlayFrom(InitialStates(BoardTexts(contents)), numbers, 0, 0).result
  }

  /** Boards just built are the initial states of their texts. */
  lemma BuiltStates(boards: seq<Board>, texts: seq<string>)
    requires Built(boards, texts)
    ensures Holds(boards, InitialStates(texts))
  {
  }

  /** `execute`. */
  method Execute(contents: string) returns (result: GameResult)
    ensures result == Game(contents)
  {
    var numbers := GetBingoNumbers(contents);
    if numbers.None? {
      return Panicked;
    }
    var boards := GetBingoBoards(contents);
    if boards.None? {
      return Panicked;
    }
    BuiltStates(boards.value, BoardTexts(contents));
    result := Play(numbers.value, boards.value, InitialStates(BoardTexts(contents)));
  }

  /** Cells none of which is marked count no marks. */
  lemma {:induction false} NoneMarked(cells: seq<Option<Number>>)
    requires forall k :: 0 <= k < |cells| ==> !IsMarked(cells[k])
    ensures Marked(cells) == 0
  {
    if cells != [] {
      NoneMarked(cells[..|cells| - 1]);
    }
  }

  /** A board just built from its text is tracked with nothing drawn. */
  lemma InitialTracked(text: string)
    requires CanBuild(text)
    ensures Tracked(State(BoardCells(text), [0, 0, 0, 0, 0], [0, 0, 0, 0, 0]), {})
  {
    var g := BoardCells(text);
    BoardCellsFull(text);
    forall i | 0 <= i < SIZE ensures Marked(g[i]) == 0 && Marked(Column(g, i)) == 0 {
      NoneMarked(g[i]);
      NoneMarked(Column(g, i));
    }
  }

  /** With no value drawn twice, a game that has a winner ends on a board
      with a row or a column all marked; and when every board was read
      full, the game does not panic. */
  lemma GameBingo(contents: string)
    requires GetBingoNumbers(contents).Some? && Buildable(BoardTexts(contents))
    ensures var o := PlayFrom(InitialStates(BoardTexts(contents)), GetBingoNumbers(contents).value, 0, 0);
      Game(contents) == o.result &&
      (DistinctValues(GetBingoNumbers(contents).value) && o.result.Won? ==>
        o.result.win.board < |o.states| && IsState(o.states[o.result.win.board]) && Bingo(o.states[o.result.win.board].cells))
    ensures (forall k :: 0 <= k < |BoardTexts(contents)| ==> Full(BoardCells(BoardTexts(contents)[k]))) ==>
      Game(contents) != Panicked
  {
    var texts := BoardTexts(contents);
    var numbers := GetBingoNumbers(contents).value;
    var states := InitialStates(texts);
    if numbers != [] && DistinctValues(numbers) {
      forall k | 0 <= k < |states| ensures Tracked(states[k], DrawnValues(numbers, 0)) {
        InitialTracked(texts[k]);
      }
      PlayBingo(states, numbers, 0, 0);
    }
    if forall k :: 0 <= k < |texts| ==> Full(BoardCells(texts[k])) {
      PlayFullNoPanic(states, numbers, 0, 0);
    }
  }
}
