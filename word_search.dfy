/** The word search of 2024 day 4: a word is looked for from every cell of
    a matrix of letters in each of the eight directions, and in part two
    the centres crossed by two diagonal "MAS" words are counted. The matrix
    is indexed `matrix[col][row]`: `col` picks the line and `row` the
    letter in it. */
module CeresSearch {
  import opened Text

  /** `Direction`: one step, in lines and in letters. */
  datatype Direction = Direction(col: int, row: int)

  /** `get_matrix`: each line turned into its list of letters, which is
      the line itself. */
  method GetMatrix(input: seq<string>) returns (matrix: seq<seq<char>>)
    ensures |matrix| == |input|
    ensures forall i :: 0 <= i < |input| ==> matrix[i] == input[i]
  {
    matrix := [];
    for i := 0 to |input|
      invariant matrix == input[..i]
    {
      matrix := matrix + [input[i]];
    }
  }

  predicate InBounds(matrix: seq<seq<char>>, col: int, row: int)
  {
    0 <= col < |matrix| && 0 <= row < |matrix[col]|
  }

  /** Every line of the matrix has the same length. */
  predicate Rectangular(matrix: seq<seq<char>>)
  {
    forall i, j :: 0 <= i < |matrix| && 0 <= j < |matrix| ==> |matrix[i]| == |matrix[j]|
  }

  /** `_get_word_occurrences`: the letter at `(col, row)` appended to `acc`;
      1 when that spells the word, 0 when it is as long as the word, or
      when the next cell in the direction is off the matrix, and otherwise
      the same from the next cell. The next cell is checked against the
      length of the current line, so on a ragged matrix the next cell can
      be past the end of its own line, which raises: `None`. */
  function WordAt(matrix: seq<seq<char>>, word: string, acc: string, dir: Direction, col: int, row: int): Option<nat>
    decreases |word| - |acc|
  {
    if !InBounds(matrix, col, row) then None
    else
      var acc' := acc + [matrix[col][row]];
      if acc' == word then Some(1)
      else if |acc'| >= |word| then Some(0)
      else
        var nextCol, nextRow := col + dir.col, row + dir.row;
        if nextCol < 0 || nextCol >= |matrix| || nextRow < 0 || nextRow >= |matrix[col]| then Some(0)
        else WordAt(matrix, word, acc', dir, nextCol, nextRow)
  }

  /** The letters met from `(col, row)` stepping in `dir`, at most `m` of
      them, stopping at the edge of the matrix. */
  function Stepped(matrix: seq<seq<char>>, dir: Direction, col: int, row: int, m: nat): (r: seq<char>)
    ensures |r| <= m
    decreases m
  {
    if m == 0 || !InBounds(matrix, col, row) then []
    else [matrix[col][row]] + Stepped(matrix, dir, col + dir.col, row + dir.row, m - 1)
  }

  /** On a rectangular matrix the search from a cell never raises, and it
      finds the word exactly when `acc` followed by the letters stepped
      from the cell spells it. */
  lemma {:induction false} WordAtSpec(matrix: seq<seq<char>>, word: string, acc: string, dir: Direction, col: int, row: int)
    requires Rectangular(matrix) && InBounds(matrix, col, row) && |acc| < |word|
    ensures WordAt(matrix, word, acc, dir, col, row) ==
      Some(if acc + Stepped(matrix, dir, col, row, |word| - |acc|) == word then 1 else 0)
    decreases |word| - |acc|
  {
    var m := |word| - |acc|;
    var acc' := acc + [matrix[col][row]];
    var nextCol, nextRow := col + dir.col, row + dir.row;
    var rest := Stepped(matrix, dir, nextCol, nextRow, m - 1);
    assert Stepped(matrix, dir, col, row, m) == [matrix[col][row]] + rest;
    assert acc + ([matrix[col][row]] + rest) == acc' + rest;
    if acc' == word {
      assert m == 1 && rest == [];
    } else if |acc'| >= |word| {
      assert m == 1 && rest == [];
    } else if nextCol < 0 || nextCol >= |matrix| || nextRow < 0 || nextRow >= |matrix[col]| {
      assert !InBounds(matrix, nextCol, nextRow);
      assert rest == [];
      assert |acc' + rest| < |word|;
    } else {
      assert |matrix[nextCol]| == |matrix[col]|;
      WordAtSpec(matrix, word, acc', dir, nextCol, nextRow);
    }
  }

  /** The search started with nothing read: 1 exactly when the letters
      stepped from the cell spell the word; never for the empty word. */
  lemma WordFromCell(matrix: seq<seq<char>>, word: string, dir: Direction, col: int, row: int)
    requires Rectangular(matrix) && InBounds(matrix, col, row)
    ensures WordAt(matrix, word, "", dir, col, row) ==
      Some(if word != "" && Stepped(matrix, dir, col, row, |word|) == word then 1 else 0)
  {
    if word != "" {
      WordAtSpec(matrix, word, "", dir, col, row);
      assert "" + Stepped(matrix, dir, col, row, |word|) == Stepped(matrix, dir, col, row, |word|);
    }
  }

  /** The eight directions of `get_word_occurrences`, in its order. */
  const Directions: seq<Direction> := [
    Direction(0, 1), Direction(0, -1), Direction(1, 0), Direction(-1, 0),
    Direction(1, 1), Direction(1, -1), Direction(-1, -1), Direction(-1, 1)]

  /** The searches from one cell, one per direction. */
  function CellSearch(matrix: seq<seq<char>>, word: string, cell: (int, int)): Direction -> Option<nat>
  {
    (dir: Direction) => WordAt(matrix, word, "", dir, cell.0, cell.1)
  }

  /** What one cell adds: the word found from it in each of the eight
      directions. */
  function CellTotal(matrix: seq<seq<char>>, word: string, cell: (int, int)): Option<nat>
  {
    SumOver(CellSearch(matrix, word, cell), Directions)
  }

  function CellValue(matrix: seq<seq<char>>, word: string): ((int, int)) -> Option<nat>
  {
    (cell: (int, int)) => CellTotal(matrix, word, cell)
  }

  /** In how many of `dirs` the letters stepped from the cell spell the
      word. */
  function SpelledCount(matrix: seq<seq<char>>, word: string, cell: (int, int), dirs: seq<Direction>): nat
  {
    if dirs == [] then 0
    else
      var last := |dirs| - 1;
      SpelledCount(matrix, word, cell, dirs[..last]) +
        if word != "" && Stepped(matrix, dirs[last], cell.0, cell.1, |word|) == word then 1 else 0
  }

  /** On a rectangular matrix, a cell adds the number of directions in
      which the word is spelled from it. */
  lemma {:induction false} CellSearchSpec(matrix: seq<seq<char>>, word: string, cell: (int, int), dirs: seq<Direction>)
    requires Rectangular(matrix) && InBounds(matrix, cell.0, cell.1)
    ensures SumOver(CellSearch(matrix, word, cell), dirs) == Some(SpelledCount(matrix, word, cell, dirs))
  {
    if dirs != [] {
      var last := |dirs| - 1;
      CellSearchSpec(matrix, word, cell, dirs[..last]);
      WordFromCell(matrix, word, dirs[last], cell.0, cell.1);
      assert dirs == dirs[..last] + [dirs[last]];
      SumOverAppend(CellSearch(matrix, word, cell), dirs[..last], dirs[last]);
    }
  }

  /** The cells of line `col` up to letter `n`, left to right. */
  function LineCells(col: int, n: nat): seq<(int, int)>
  {
    seq(n, row requires 0 <= row < n => (col, row))
  }

  /** The cells of the first `n` lines, line by line. */
  function CellsUpTo(matrix: seq<seq<char>>, n: nat): seq<(int, int)>
    requires n <= |matrix|
  {
    if n == 0 then [] else CellsUpTo(matrix, n - 1) + LineCells(n - 1, |matrix[n - 1]|)
  }

  /** Every cell listed is in the matrix, and every cell of the matrix is
      listed. */
  lemma {:induction false} CellsUpToSpec(matrix: seq<seq<char>>, n: nat)
    requires n <= |matrix|
    ensures forall k :: 0 <= k < |CellsUpTo(matrix, n)| ==>
      InBounds(matrix, CellsUpTo(matrix, n)[k].0, CellsUpTo(matrix, n)[k].1) && CellsUpTo(matrix, n)[k].0 < n
    ensures forall col, row :: 0 <= col < n && 0 <= row < |matrix[col]| ==> (col, row) in CellsUpTo(matrix, n)
  {
    if n > 0 {
      CellsUpToSpec(matrix, n - 1);
      var before, line := CellsUpTo(matrix, n - 1), LineCells(n - 1, |matrix[n - 1]|);
      assert CellsUpTo(matrix, n) == before + line;
      forall col, row | 0 <= col < n && 0 <= row < |matrix[col]|
        ensures (col, row) in CellsUpTo(matrix, n)
      {
        if col == n - 1 {
          assert line[row] == (col, row);
        }
      }
    }
  }

  /** The answer of part one: what every cell adds; `None` when a search
      raises. */
  function Occurrences(matrix: seq<seq<char>>, word: string): Option<nat>
  {
    SumOver(CellValue(matrix, word), CellsUpTo(matrix, |matrix|))
  }

  /** On a rectangular matrix the search never raises: the answer is the
      number of pairs of a cell and a direction from which the word is
      spelled. */
  function SpelledTotal(matrix: seq<seq<char>>, word: string, cells: seq<(int, int)>): nat
  {
    if cells == [] then 0
    else
      var last := |cells| - 1;
      SpelledTotal(matrix, word, cells[..last]) + SpelledCount(matrix, word, cells[last], Directions)
  }

  lemma OccurrencesOfCells(matrix: seq<seq<char>>, word: string, cells: seq<(int, int)>)
    requires Rectangular(matrix)
    requires forall k :: 0 <= k < |cells| ==> InBounds(matrix, cells[k].0, cells[k].1)
    ensures SumOver(CellValue(matrix, word), cells) == Some(SpelledTotal(matrix, word, cells))
  {
    forall k | 0 <= k < |cells|
      ensures CellValue(matrix, word)(cells[k]) == Some(SpelledCount(matrix, word, cells[k], Directions))
    {
      CellSearchSpec(matrix, word, cells[k], Directions);
    }
    SumOfCounts(matrix, word, cells);
  }

  /** Cells that each count their spellings sum to the spellings of them
      all. */
  lemma {:induction false} SumOfCounts(matrix: seq<seq<char>>, word: string, cells: seq<(int, int)>)
    requires forall k :: 0 <= k < |cells| ==> CellValue(matrix, word)(cells[k]) == Some(SpelledCount(matrix, word, cells[k], Directions))
    ensures SumOver(CellValue(matrix, word), cells) == Some(SpelledTotal(matrix, word, cells))
  {
    if cells != [] {
      var last := |cells| - 1;
      var f := CellValue(matrix, word);
      assert forall k :: 0 <= k < last ==> cells[..last][k] == cells[k];
      SumOfCounts(matrix, word, cells[..last]);
      assert f(cells[last]) == Some(SpelledCount(matrix, word, cells[last], Directions));
    }
  }

  /** Part one on a rectangular matrix counts every spelling of the word
      from every cell in every direction. */
  lemma OccurrencesSpec(matrix: seq<seq<char>>, word: string)
    requires Rectangular(matrix)
    ensures Occurrences(matrix, word) == Some(SpelledTotal(matrix, word, CellsUpTo(matrix, |matrix|)))
  {
    CellsUpToSpec(matrix, |matrix|);
    OccurrencesOfCells(matrix, word, CellsUpTo(matrix, |matrix|));
  }

  /** `get_word_occurrences`: every line, every letter of it, and the eight
      searches from there added to `occurrences`. */
  method GetWordOccurrences(matrix: seq<seq<char>>, word: string) returns (r: Option<nat>)
    ensures r == Occurrences(matrix, word)
  {
    var occurrences := 0;
    for col := 0 to |matrix|
      invariant SumOver(CellValue(matrix, word), CellsUpTo(matrix, col)) == Some(occurrences)
    {
      var total := AddLine(matrix, word, col, occurrences);
      if total.None? {
        return None;
      }
      occurrences := total.value;
    }
    return Some(occurrences);
  }

  /** The inner loop of `get_word_occurrences`: every letter of line `col`
      and the eight searches from there added to `occurrences`. */
  method AddLine(matrix: seq<seq<char>>, word: string, col: nat, occurrences: nat) returns (r: Option<nat>)
    requires col < |matrix|
    requires SumOver(CellValue(matrix, word), CellsUpTo(matrix, col)) == Some(occurrences)
    ensures r.None? ==> Occurrences(matrix, word).None?
    ensures r.Some? ==> SumOver(CellValue(matrix, word), CellsUpTo(matrix, col + 1)) == r
  {
    ghost var f := CellValue(matrix, word);
    ghost var before := CellsUpTo(matrix, col);
    LineStart(matrix, word, col);
    var total := occurrences;
    for row := 0 to |matrix[col]|
      invariant SumOver(f, before + LineCells(col, row)) == Some(total)
    {
      var value := CellTotal(matrix, word, (col, row));
      assert f((col, row)) == value;
      if value.None? {
        CellFails(matrix, word, col, row);
        return None;
      }
      CellAdds(f, before, col, row, total, value.value);
      total := total + value.value;
    }
    LineDone(matrix, word, col);
    return Some(total);
  }

  /** The cells of the lines from `n` on, line by line. */
  function CellsAfter(matrix: seq<seq<char>>, n: nat): seq<(int, int)>
    requires n <= |matrix|
    decreases |matrix| - n
  {
    if n == |matrix| then [] else LineCells(n, |matrix[n]|) + CellsAfter(matrix, n + 1)
  }

  /** The cells before line `n` followed by those from it on are all the
      cells. */
  lemma {:induction false} CellsBeforeAfter(matrix: seq<seq<char>>, n: nat)
    requires n <= |matrix|
    ensures CellsUpTo(matrix, n) + CellsAfter(matrix, n) == CellsUpTo(matrix, |matrix|)
    decreases |matrix| - n
  {
    if n < |matrix| {
      CellsBeforeAfter(matrix, n + 1);
      assert CellsUpTo(matrix, n + 1) == CellsUpTo(matrix, n) + LineCells(n, |matrix[n]|);
    } else {
      assert CellsUpTo(matrix, n) + [] == CellsUpTo(matrix, n);
    }
  }

  /** One more cell of line `col` adds what that cell adds. */
  lemma CellStep(f: ((int, int)) -> Option<nat>, before: seq<(int, int)>, col: nat, row: nat)
    ensures SumOver(f, before + LineCells(col, row + 1)) ==
      if SumOver(f, before + LineCells(col, row)).Some? && f((col, row)).Some?
      then Some(SumOver(f, before + LineCells(col, row)).value + f((col, row)).value)
      else None
  {
    LineCellsStep(col, row);
    assert before + LineCells(col, row + 1) == (before + LineCells(col, row)) + [(col, row)];
    SumOverAppend(f, before + LineCells(col, row), (col, row));
  }

  /** A cell that counts adds its count to the total so far. */
  lemma CellAdds(f: ((int, int)) -> Option<nat>, before: seq<(int, int)>, col: nat, row: nat, total: nat, value: nat)
    requires SumOver(f, before + LineCells(col, row)) == Some(total) && f((col, row)) == Some(value)
    ensures SumOver(f, before + LineCells(col, row + 1)) == Some(total + value)
  {
    CellStep(f, before, col, row);
  }

  /** The cells of a line up to `row + 1` are those up to `row`, then the
      cell at `row`. */
  lemma LineCellsStep(col: int, row: nat)
    ensures LineCells(col, row + 1) == LineCells(col, row) + [(col, row)]
  {
  }

  /** No cell of line `col` yet: the cells of the lines before it. */
  lemma LineStart(matrix: seq<seq<char>>, word: string, col: nat)
    requires col < |matrix|
    ensures SumOver(CellValue(matrix, word), CellsUpTo(matrix, col) + LineCells(col, 0)) ==
      SumOver(CellValue(matrix, word), CellsUpTo(matrix, col))
  {
    assert CellsUpTo(matrix, col) + LineCells(col, 0) == CellsUpTo(matrix, col);
  }

  /** Every cell of line `col`: the cells of the lines up to it. */
  lemma LineDone(matrix: seq<seq<char>>, word: string, col: nat)
    requires col < |matrix|
    ensures SumOver(CellValue(matrix, word), CellsUpTo(matrix, col + 1)) ==
      SumOver(CellValue(matrix, word), CellsUpTo(matrix, col) + LineCells(col, |matrix[col]|))
  {
  }

  /** A search that raises from one cell makes part one fail. */
  lemma CellFails(matrix: seq<seq<char>>, word: string, col: nat, row: nat)
    requires col < |matrix| && row < |matrix[col]|
    requires CellValue(matrix, word)((col, row)).None?
    ensures Occurrences(matrix, word).None?
  {
    var prefix := CellsUpTo(matrix, col) + LineCells(col, row + 1);
    CellsPrefix(matrix, col, row);
    var all := CellsUpTo(matrix, |matrix|);
    assert all[|prefix| - 1] == prefix[|prefix| - 1] == (col, row);
    SumOverFails(CellValue(matrix, word), all, |prefix| - 1);
  }

  /** `part_one`: "XMAS" searched in the matrix of the lines. */
  method PartOne(input: seq<string>) returns (r: Option<nat>)
    ensures r == Occurrences(input, "XMAS")
  {
    var matrix := GetMatrix(input);
    assert matrix == input;
    r := GetWordOccurrences(matrix, "XMAS");
  }

  /** The cell one step from `cell` in `dir`. */
  function Step(cell: (int, int), dir: Direction): (int, int)
  {
    (cell.0 + dir.col, cell.1 + dir.row)
  }

  /** The diagonals of `get_x_max_occurrences`, in its order. */
  const Diagonals: seq<Direction> := [Direction(1, 1), Direction(-1, -1), Direction(1, -1), Direction(-1, 1)]

  const Mas := "MAS"

  /** What `cross.get(key, 0)` reads. */
  function Get(cross: map<(int, int), nat>, key: (int, int)): nat
  {
    if key in cross then cross[key] else 0
  }

  /** The four updates of `cross` for one cell, each adding to the count of
      the cell one step along the diagonal whether "MAS" is read from the
      cell along it; `None` when a search raises. */
  function AddCrossings(cross: map<(int, int), nat>, matrix: seq<seq<char>>, cell: (int, int), dirs: seq<Direction>): Option<map<(int, int), nat>>
  {
    if dirs == [] then Some(cross)
    else
      var last := |dirs| - 1;
      match AddCrossings(cross, matrix, cell, dirs[..last])
      case None => None
      case Some(before) =>
        match WordAt(matrix, Mas, "", dirs[last], cell.0, cell.1)
        case None => None
        case Some(found) =>
          var key := Step(cell, dirs[last]);
          Some(before[key := Get(before, key) + found])
  }

  /** The cross counts after the cells, in order. */
  function Crossings(matrix: seq<seq<char>>, cells: seq<(int, int)>): Option<map<(int, int), nat>>
  {
    if cells == [] then Some(map[])
    else
      var last := |cells| - 1;
      match Crossings(matrix, cells[..last])
      case None => None
      case Some(cross) => AddCrossings(cross, matrix, cells[last], Diagonals)
  }

  /** The answer of part two: how many cells were counted exactly twice. */
  function XMas(matrix: seq<seq<char>>): Option<nat>
  {
    match Crossings(matrix, CellsUpTo(matrix, |matrix|))
    case None => None
    case Some(cross) => Some(|set key | key in cross && cross[key] == 2|)
  }

  /** The cells one step from `cell` along the directions. */
  function Ends(cell: (int, int), dirs: seq<Direction>): set<(int, int)>
  {
    if dirs == [] then {} else Ends(cell, dirs[..|dirs| - 1]) + {Step(cell, dirs[|dirs| - 1])}
  }

  /** Along how many of the directions "MAS" is read from `cell` with its
      'A' on `centre`. */
  function Hits(matrix: seq<seq<char>>, cell: (int, int), dirs: seq<Direction>, centre: (int, int)): (n: nat)
    ensures n <= |dirs|
  {
    if dirs == [] then 0
    else
      var last := |dirs| - 1;
      Hits(matrix, cell, dirs[..last], centre) +
        if Step(cell, dirs[last]) == centre && Stepped(matrix, dirs[last], cell.0, cell.1, |Mas|) == Mas then 1 else 0
  }

  /** Every cell one diagonal step from one of the cells. */
  function Centres(cells: seq<(int, int)>): set<(int, int)>
  {
    if cells == [] then {} else Centres(cells[..|cells| - 1]) + Ends(cells[|cells| - 1], Diagonals)
  }

  /** How many diagonal "MAS" words read from the cells have their 'A' on
      `centre`. */
  function CrossCount(matrix: seq<seq<char>>, cells: seq<(int, int)>, centre: (int, int)): nat
  {
    if cells == [] then 0
    else
      var last := |cells| - 1;
      CrossCount(matrix, cells[..last], centre) + Hits(matrix, cells[last], Diagonals, centre)
  }

  /** On a rectangular matrix one cell's updates never raise: they touch
      the cells one step along the directions, and add to each the number
      of "MAS" words read towards it. */
  lemma {:induction false} AddCrossingsSpec(cross: map<(int, int), nat>, matrix: seq<seq<char>>, cell: (int, int), dirs: seq<Direction>)
    requires Rectangular(matrix) && InBounds(matrix, cell.0, cell.1)
    ensures AddCrossings(cross, matrix, cell, dirs).Some?
    ensures AddCrossings(cross, matrix, cell, dirs).value.Keys == cross.Keys + Ends(cell, dirs)
    ensures forall key :: key in AddCrossings(cross, matrix, cell, dirs).value ==>
      AddCrossings(cross, matrix, cell, dirs).value[key] == Get(cross, key) + Hits(matrix, cell, dirs, key)
  {
    if dirs != [] {
      var last := |dirs| - 1;
      AddCrossingsSpec(cross, matrix, cell, dirs[..last]);
      WordFromCell(matrix, Mas, dirs[last], cell.0, cell.1);
      var before := AddCrossings(cross, matrix, cell, dirs[..last]).value;
      CrossingStep(cross, before, matrix, cell, dirs);
    }
  }

  /** One more direction: its end counted once more when "MAS" is read
      along it. */
  lemma CrossingStep(cross: map<(int, int), nat>, before: map<(int, int), nat>, matrix: seq<seq<char>>, cell: (int, int), dirs: seq<Direction>)
    requires dirs != []
    requires before.Keys == cross.Keys + Ends(cell, dirs[..|dirs| - 1])
    requires forall key :: key in before ==> before[key] == Get(cross, key) + Hits(matrix, cell, dirs[..|dirs| - 1], key)
    ensures var dir := dirs[|dirs| - 1];
      var key := Step(cell, dir);
      var after := before[key := Get(before, key) + if Stepped(matrix, dir, cell.0, cell.1, |Mas|) == Mas then 1 else 0];
      after.Keys == cross.Keys + Ends(cell, dirs) &&
      forall centre :: centre in after ==> after[centre] == Get(cross, centre) + Hits(matrix, cell, dirs, centre)
  {
    var last := |dirs| - 1;
    var spelled := Stepped(matrix, dirs[last], cell.0, cell.1, |Mas|) == Mas;
    var key := Step(cell, dirs[last]);
    var after := before[key := Get(before, key) + if spelled then 1 else 0];
    forall centre | centre in after
      ensures after[centre] == Get(cross, centre) + Hits(matrix, cell, dirs, centre)
    {
      assert Hits(matrix, cell, dirs, centre) ==
        Hits(matrix, cell, dirs[..last], centre) + if key == centre && spelled then 1 else 0;
      if centre !in before {
        HitsOutside(matrix, cell, dirs[..last], centre);
      }
    }
  }

  /** On a rectangular matrix the counts never fail: the cells counted are
      the centres, each counted once for every "MAS" word crossing it. */
  lemma {:induction false} CrossingsSpec(matrix: seq<seq<char>>, cells: seq<(int, int)>)
    requires Rectangular(matrix)
    requires forall k :: 0 <= k < |cells| ==> InBounds(matrix, cells[k].0, cells[k].1)
    ensures Crossings(matrix, cells).Some?
    ensures Crossings(matrix, cells).value.Keys == Centres(cells)
    ensures forall key :: key in Crossings(matrix, cells).value ==>
      Crossings(matrix, cells).value[key] == CrossCount(matrix, cells, key)
  {
    if cells != [] {
      var last := |cells| - 1;
      assert forall k :: 0 <= k < last ==> cells[..last][k] == cells[k];
      CrossingsSpec(matrix, cells[..last]);
      var cross := Crossings(matrix, cells[..last]).value;
      AddCrossingsSpec(cross, matrix, cells[last], Diagonals);
      forall key | key in Crossings(matrix, cells).value
        ensures Crossings(matrix, cells).value[key] == CrossCount(matrix, cells, key)
      {
        if key !in cross {
          CrossCountOutside(matrix, cells[..last], key);
        }
      }
    }
  }

  /** No "MAS" word crosses a cell that is no centre. */
  lemma {:induction false} CrossCountOutside(matrix: seq<seq<char>>, cells: seq<(int, int)>, centre: (int, int))
    requires centre !in Centres(cells)
    ensures CrossCount(matrix, cells, centre) == 0
  {
    if cells != [] {
      var last := |cells| - 1;
      CrossCountOutside(matrix, cells[..last], centre);
      HitsOutside(matrix, cells[last], Diagonals, centre);
    }
  }

  /** No word read from `cell` has its 'A' off the cells one step from it. */
  lemma {:induction false} HitsOutside(matrix: seq<seq<char>>, cell: (int, int), dirs: seq<Direction>, centre: (int, int))
    requires centre !in Ends(cell, dirs)
    ensures Hits(matrix, cell, dirs, centre) == 0
  {
    if dirs != [] {
      HitsOutside(matrix, cell, dirs[..|dirs| - 1], centre);
    }
  }

  /** Part two on a rectangular matrix counts the centres crossed by
      exactly two diagonal "MAS" words. */
  lemma XMasSpec(matrix: seq<seq<char>>)
    requires Rectangular(matrix)
    ensures XMas(matrix) == Some(|set centre | centre in Centres(CellsUpTo(matrix, |matrix|)) &&
      CrossCount(matrix, CellsUpTo(matrix, |matrix|), centre) == 2|)
  {
    var cells := CellsUpTo(matrix, |matrix|);
    CellsUpToSpec(matrix, |matrix|);
    CrossingsSpec(matrix, cells);
    TwiceCounted(Crossings(matrix, cells).value, matrix, cells);
  }

  /** The keys counted twice are the centres crossed twice. */
  lemma TwiceCounted(cross: map<(int, int), nat>, matrix: seq<seq<char>>, cells: seq<(int, int)>)
    requires cross.Keys == Centres(cells)
    requires forall key :: key in cross ==> cross[key] == CrossCount(matrix, cells, key)
    ensures (set key | key in cross && cross[key] == 2) ==
      (set centre | centre in Centres(cells) && CrossCount(matrix, cells, centre) == 2)
  {
  }

  /** The four updates of one cell in `get_x_max_occurrences`, in its
      order. */
  method AddCellCrossings(cross: map<(int, int), nat>, matrix: seq<seq<char>>, col: int, row: int)
    returns (r: Option<map<(int, int), nat>>)
    ensures r == AddCrossings(cross, matrix, (col, row), Diagonals)
  {
    var cell := (col, row);
    assert Diagonals[..1] == [Direction(1, 1)];
    assert Diagonals[..2] == Diagonals[..1] + [Direction(-1, -1)];
    assert Diagonals[..3] == Diagonals[..2] + [Direction(1, -1)];
    assert Diagonals == Diagonals[..3] + [Direction(-1, 1)];
    var found := WordAt(matrix, Mas, "", Direction(1, 1), col, row);
    if found.None? {
      AddCrossingsFail(cross, matrix, cell, Diagonals, 1);
      return None;
    }
    var updated := cross[(col + 1, row + 1) := Get(cross, (col + 1, row + 1)) + found.value];
    assert AddCrossings(cross, matrix, cell, Diagonals[..1]) == Some(updated);
    found := WordAt(matrix, Mas, "", Direction(-1, -1), col, row);
    if found.None? {
      AddCrossingsFail(cross, matrix, cell, Diagonals, 2);
      return None;
    }
    updated := updated[(col - 1, row - 1) := Get(updated, (col - 1, row - 1)) + found.value];
    assert AddCrossings(cross, matrix, cell, Diagonals[..2]) == Some(updated);
    found := WordAt(matrix, Mas, "", Direction(1, -1), col, row);
    if found.None? {
      AddCrossingsFail(cross, matrix, cell, Diagonals, 3);
      return None;
    }
    updated := updated[(col + 1, row - 1) := Get(updated, (col + 1, row - 1)) + found.value];
    assert AddCrossings(cross, matrix, cell, Diagonals[..3]) == Some(updated);
    found := WordAt(matrix, Mas, "", Direction(-1, 1), col, row);
    if found.None? {
      return None;
    }
    updated := updated[(col - 1, row + 1) := Get(updated, (col - 1, row + 1)) + found.value];
    return Some(updated);
  }

  /** Updates that raised for the first `n` directions raise for all. */
  lemma {:induction false} AddCrossingsFail(cross: map<(int, int), nat>, matrix: seq<seq<char>>, cell: (int, int), dirs: seq<Direction>, n: nat)
    requires n <= |dirs| && AddCrossings(cross, matrix, cell, dirs[..n]).None?
    ensures AddCrossings(cross, matrix, cell, dirs).None?
  {
    if n < |dirs| {
      var last := |dirs| - 1;
      assert dirs[..last][..n] == dirs[..n];
      AddCrossingsFail(cross, matrix, cell, dirs[..last], n);
    } else {
      assert dirs[..n] == dirs;
    }
  }

  /** Counts that failed for the first `n` cells fail for all. */
  lemma {:induction false} CrossingsFailOnward(matrix: seq<seq<char>>, cells: seq<(int, int)>, n: nat)
    requires n <= |cells| && Crossings(matrix, cells[..n]).None?
    ensures Crossings(matrix, cells).None?
  {
    if n < |cells| {
      var last := |cells| - 1;
      assert cells[..last][..n] == cells[..n];
      CrossingsFailOnward(matrix, cells[..last], n);
    } else {
      assert cells[..n] == cells;
    }
  }

  /** The cells up to `(col, row)` come first among all the cells. */
  lemma CellsPrefix(matrix: seq<seq<char>>, col: nat, row: nat)
    requires col < |matrix| && row < |matrix[col]|
    ensures |CellsUpTo(matrix, col) + LineCells(col, row + 1)| <= |CellsUpTo(matrix, |matrix|)|
    ensures CellsUpTo(matrix, |matrix|)[..|CellsUpTo(matrix, col) + LineCells(col, row + 1)|] ==
      CellsUpTo(matrix, col) + LineCells(col, row + 1)
  {
    var before, line := CellsUpTo(matrix, col), LineCells(col, |matrix[col]|);
    var prefix := before + LineCells(col, row + 1);
    CellsBeforeAfter(matrix, col);
    assert CellsAfter(matrix, col) == line + CellsAfter(matrix, col + 1);
    var all := CellsUpTo(matrix, |matrix|);
    assert all == before + (line + CellsAfter(matrix, col + 1));
    forall k | 0 <= k < |prefix|
      ensures all[k] == prefix[k]
    {
      if k >= |before| {
        assert all[k] == line[k - |before|];
      }
    }
  }

  /** The updates of a cell that raise make part two fail. */
  lemma CrossingsFail(matrix: seq<seq<char>>, col: nat, row: nat)
    requires col < |matrix| && row < |matrix[col]|
    requires Crossings(matrix, CellsUpTo(matrix, col) + LineCells(col, row + 1)).None?
    ensures Crossings(matrix, CellsUpTo(matrix, |matrix|)).None?
  {
    CellsPrefix(matrix, col, row);
    CrossingsFailOnward(matrix, CellsUpTo(matrix, |matrix|), |CellsUpTo(matrix, col) + LineCells(col, row + 1)|);
  }

  /** One more cell of line `col`: its four updates. */
  lemma CrossingsStep(matrix: seq<seq<char>>, col: nat, row: nat)
    requires col < |matrix| && row < |matrix[col]|
    ensures Crossings(matrix, CellsUpTo(matrix, col) + LineCells(col, row + 1)) ==
      match Crossings(matrix, CellsUpTo(matrix, col) + LineCells(col, row))
      case None => None
      case Some(cross) => AddCrossings(cross, matrix, (col, row), Diagonals)
  {
    assert LineCells(col, row + 1) == LineCells(col, row) + [(col, row)];
    assert CellsUpTo(matrix, col) + LineCells(col, row + 1) == CellsUpTo(matrix, col) + LineCells(col, row) + [(col, row)];
  }

  /** `get_x_max_occurrences`: the four updates of every cell, line by
      line, then the number of keys counted exactly twice. */
  method GetXMasOccurrences(matrix: seq<seq<char>>) returns (r: Option<nat>)
    ensures r == XMas(matrix)
  {
    var cross: map<(int, int), nat> := map[];
    for col := 0 to |matrix|
      invariant Crossings(matrix, CellsUpTo(matrix, col)) == Some(cross)
    {
      assert CellsUpTo(matrix, col) + LineCells(col, 0) == CellsUpTo(matrix, col);
      for row := 0 to |matrix[col]|
        invariant Crossings(matrix, CellsUpTo(matrix, col) + LineCells(col, row)) == Some(cross)
      {
        CrossingsStep(matrix, col, row);
        var updated := AddCellCrossings(cross, matrix, col, row);
        if updated.None? {
          CrossingsFail(matrix, col, row);
          return None;
        }
        cross := updated.value;
      }
      assert CellsUpTo(matrix, col + 1) == CellsUpTo(matrix, col) + LineCells(col, |matrix[col]|);
    }
    return Some(|set key | key in cross && cross[key] == 2|);
  }

  /** `part_two`: the X-MAS crossings of the matrix of the lines. */
  method PartTwo(input: seq<string>) returns (r: Option<nat>)
    ensures r == XMas(input)
  {
    var matrix := GetMatrix(input);
    assert matrix == input;
    r := GetXMasOccurrences(matrix);
  }
}
