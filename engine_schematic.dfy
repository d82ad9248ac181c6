/** The engine schematic of 2023 day 3: every maximal run of digits on a row
    is a part number, every character that is neither a digit nor '.' is a
    symbol, and part one adds up the value of each part once for every symbol
    next to it, diagonals included. */
module EngineSchematic {
  import opened Text

  /** `Point`: a column `x` and a row `y`. */
  datatype Point = Point(x: nat, y: nat)

  /** `usize::abs_diff`. */
  function AbsDiff(a: nat, b: nat): (d: nat)
    ensures d == if a <= b then b - a else a - b
  {
    if a <= b then b - a else a - b
  }

  /** `is_adjacent_to`: at most one column and at most one row apart. */
  predicate IsAdjacentTo(p: Point, q: Point)
  {
    AbsDiff(p.x, q.x) <= 1 && AbsDiff(p.y, q.y) <= 1
  }

  /** Adjacency is symmetric and every point is next to itself. */
  lemma AdjacencySymmetric(p: Point, q: Point)
    ensures IsAdjacentTo(p, q) <==> IsAdjacentTo(q, p)
    ensures IsAdjacentTo(p, p)
  {
  }

  /** Two points are adjacent exactly when their columns and rows each
      differ by at most one. */
  lemma AdjacentIff(p: Point, q: Point)
    ensures IsAdjacentTo(p, q) <==> -1 <= p.x - q.x <= 1 && -1 <= p.y - q.y <= 1
  {
  }

  /** `points_between`: the points strictly between two points of the same
      row, left to right; nothing for points on different rows. */
  function PointsBetween(a: Point, b: Point): (r: seq<Point>)
    ensures a.y != b.y ==> r == []
    ensures forall p :: p in r <==> a.y == b.y && p.y == a.y && a.x < p.x < b.x
    ensures forall k :: 0 <= k < |r| ==> r[k] == Point(a.x + 1 + k, a.y)
  {
    if a.y != b.y || b.x <= a.x + 1 then []
    else
      var r := seq(b.x - a.x - 1, k requires 0 <= k < b.x - a.x - 1 => Point(a.x + 1 + k, a.y));
      assert forall p: Point :: a.y == b.y && p.y == a.y && a.x < p.x < b.x ==> r[p.x - a.x - 1] == p;
      r
  }

  /** `Symbol`: a character and where it stands. */
  datatype Symbol = Symbol(value: char, position: Point)

  /** `Part`: a number and the points of its first and last digit. */
  datatype Part = Part(value: nat, start: Point, end: Point)

  /** `is_adjacent_to_symbol`: the first digit, the last digit or one of the
      points between them is next to the symbol. */
  predicate AdjacentToSymbol(part: Part, symbol: Symbol)
  {
    IsAdjacentTo(part.start, symbol.position) || IsAdjacentTo(part.end, symbol.position) ||
    exists k :: 0 <= k < |PointsBetween(part.start, part.end)| && IsAdjacentTo(PointsBetween(part.start, part.end)[k], symbol.position)
  }

  /** `is_adjacent_to_symbol`, with its loop over the points between the ends
      and its early returns. */
  method IsAdjacentToSymbol(part: Part, symbol: Symbol) returns (b: bool)
    ensures b == AdjacentToSymbol(part, symbol)
  {
    if IsAdjacentTo(part.start, symbol.position) || IsAdjacentTo(part.end, symbol.position) {
      return true;
    }
    var between := PointsBetween(part.start, part.end);
    for k := 0 to |between|
      invariant forall j :: 0 <= j < k ==> !IsAdjacentTo(between[j], symbol.position)
    {
      if IsAdjacentTo(between[k], symbol.position) {
        return true;
      }
    }
    return false;
  }

  /** A part on one row, first digit left of or at the last one, is next to a
      symbol exactly when one of its digits is. */
  lemma AdjacentToSymbolIff(part: Part, symbol: Symbol)
    requires part.start.y == part.end.y && part.start.x <= part.end.x
    ensures AdjacentToSymbol(part, symbol) <==>
      exists x :: part.start.x <= x <= part.end.x && IsAdjacentTo(Point(x, part.start.y), symbol.position)
  {
    var between := PointsBetween(part.start, part.end);
    var row := part.start.y;
    if AdjacentToSymbol(part, symbol) {
      if IsAdjacentTo(part.start, symbol.position) {
        assert Point(part.start.x, row) == part.start;
      } else if IsAdjacentTo(part.end, symbol.position) {
        assert Point(part.end.x, row) == part.end;
      } else {
        var k :| 0 <= k < |between| && IsAdjacentTo(between[k], symbol.position);
        assert between[k] == Point(part.start.x + 1 + k, row);
      }
    }
    if exists x :: part.start.x <= x <= part.end.x && IsAdjacentTo(Point(x, row), symbol.position) {
      var x :| part.start.x <= x <= part.end.x && IsAdjacentTo(Point(x, row), symbol.position);
      if x == part.start.x {
        assert Point(x, row) == part.start;
      } else if x == part.end.x {
        assert Point(x, row) == part.end;
      } else {
        assert between[x - part.start.x - 1] == Point(x, row);
      }
    }
  }

  /** The parts of `text` from index `i` on, where no run of digits goes on
      from before `i`: one part for each run of digits that a non-digit
      closes, its value read as a `u32`. A run that reaches the end of the
      text is dropped, as the loop of `extract_parts_from_row` drops it; a
      value over `u32::MAX` panics on `unwrap`, which is `None`. */
  function PartsFrom(row: nat, text: string, i: nat): (r: Option<seq<Part>>)
    requires i <= |text|
    decreases |text| - i
  {
    if i == |text| then Some([])
    else if !IsDigit(text[i]) then PartsFrom(row, text, i + 1)
    else
      var j := RunEnd(text, i);
      if j == |text| then Some([])
      else
        match ParseU32(text[i..j])
        case None => None
        case Some(value) =>
          match PartsFrom(row, text, j + 1)
          case None => None
          case Some(rest) => Some([Part(value, Point(i, row), Point(j - 1, row))] + rest)
  }

  /** A part found in `text`: on row `row`, its digits exactly the run from
      its start to its end, with no digit on either side, and its value the
      decimal value of that run. */
  ghost predicate RunPart(row: nat, text: string, p: Part)
  {
    p.start.y == row && p.end.y == row &&
    p.start.x <= p.end.x < |text| - 1 &&
    (forall k :: p.start.x <= k <= p.end.x ==> IsDigit(text[k])) &&
    (p.start.x == 0 || !IsDigit(text[p.start.x - 1])) &&
    !IsDigit(text[p.end.x + 1]) &&
    p.value == DecimalValue(text[p.start.x..p.end.x + 1])
  }

  /** Parts that are maximal runs of digits of `text` from index `i` on,
      with their values, left to right without overlapping. */
  ghost predicate RunParts(row: nat, text: string, i: nat, parts: seq<Part>)
  {
    (forall k :: 0 <= k < |parts| ==> RunPart(row, text, parts[k]) && i <= parts[k].start.x) &&
    (forall k :: 0 < k < |parts| ==> parts[k - 1].end.x + 1 < parts[k].start.x)
  }

  /** Every part found is a maximal run of digits with its value, and the
      parts come left to right without overlapping. */
  lemma {:induction false} PartsFromSpec(row: nat, text: string, i: nat)
    requires i <= |text| && (i == 0 || !IsDigit(text[i - 1]))
    ensures PartsFrom(row, text, i).Some? ==> RunParts(row, text, i, PartsFrom(row, text, i).value)
    decreases |text| - i
  {
    if i < |text| {
      if !IsDigit(text[i]) {
        PartsFromSpec(row, text, i + 1);
        PartsFromSkip(row, text, i);
        if PartsFrom(row, text, i).Some? {
          RunPartsLater(row, text, i, i + 1, PartsFrom(row, text, i).value);
        }
      } else {
        var j := RunEnd(text, i);
        if j < |text| {
          PartsFromRun(row, text, i, j);
          if ParseU32(text[i..j]).Some? && PartsFrom(row, text, j + 1).Some? {
            PartsFromSpec(row, text, j + 1);
            var p := Part(ParseU32(text[i..j]).value, Point(i, row), Point(j - 1, row));
            RunPartOfRun(row, text, i, j);
            RunPartsCons(row, text, i, p, PartsFrom(row, text, j + 1).value);
          }
        }
      }
    }
  }

  /** Runs from index `j` on are runs from any earlier index on. */
  lemma RunPartsLater(row: nat, text: string, i: nat, j: nat, parts: seq<Part>)
    requires i <= j && RunParts(row, text, j, parts)
    ensures RunParts(row, text, i, parts)
  {
  }

  /** A maximal run of digits from `i` to `j` that reads as a `u32` is a
      part. */
  lemma RunPartOfRun(row: nat, text: string, i: nat, j: nat)
    requires i < j < |text| && (i == 0 || !IsDigit(text[i - 1])) && !IsDigit(text[j])
    requires forall k :: i <= k < j ==> IsDigit(text[k])
    requires ParseU32(text[i..j]).Some?
    ensures RunPart(row, text, Part(ParseU32(text[i..j]).value, Point(i, row), Point(j - 1, row)))
  {
    assert text[i..j - 1 + 1] == text[i..j];
  }

  /** A run of digits starting at or after `i` put ahead of the runs from
      past its end. */
  lemma RunPartsCons(row: nat, text: string, i: nat, p: Part, rest: seq<Part>)
    requires RunPart(row, text, p) && i <= p.start.x && RunParts(row, text, p.end.x + 2, rest)
    ensures RunParts(row, text, i, [p] + rest)
  {
  }

  /** The parts already found followed by the parts still to find. */
  function Append(found: seq<Part>, rest: Option<seq<Part>>): Option<seq<Part>>
  {
    match rest
    case None => None
    case Some(more) => Some(found + more)
  }

  lemma AppendNothing(rest: Option<seq<Part>>)
    ensures Append([], rest) == rest
  {
    if rest.Some? {
      assert [] + rest.value == rest.value;
    }
  }

  lemma AppendAppend(found: seq<Part>, more: seq<Part>, rest: Option<seq<Part>>)
    ensures Append(found, Append(more, rest)) == Append(found + more, rest)
  {
    if rest.Some? {
      assert found + (more + rest.value) == found + more + rest.value;
    }
  }

  /** A non-digit outside any run adds no part. */
  lemma PartsFromSkip(row: nat, text: string, i: nat)
    requires i < |text| && !IsDigit(text[i])
    ensures PartsFrom(row, text, i) == PartsFrom(row, text, i + 1)
  {
  }

  /** A run of digits from `start` that a non-digit closes at `i` becomes
      one part, read as a `u32`, ahead of the parts after `i`. */
  lemma PartsFromRun(row: nat, text: string, start: nat, i: nat)
    requires start < i < |text| && !IsDigit(text[i])
    requires forall k :: start <= k < i ==> IsDigit(text[k])
    ensures PartsFrom(row, text, start) ==
      match ParseU32(text[start..i])
      case None => None
      case Some(value) => Append([Part(value, Point(start, row), Point(i - 1, row))], PartsFrom(row, text, i + 1))
  {
    assert RunEnd(text, start) == i;
  }

  /** The parts of a row once a '.' is put after it. */
  function RowParts(row: nat, line: string): Option<seq<Part>>
  {
    PartsFrom(row, line + ".", 0)
  }

  /** `extract_parts_from_row`: the row with a '.' put after it, scanned
      character by character; a digit starts or extends `number`, and a
      non-digit after a digit turns `number` into a part that ends just
      before it. */
  method ExtractPartsFromRow(row: nat, line: string) returns (parts: Option<seq<Part>>)
    ensures parts == RowParts(row, line)
  {
    var text := line + ".";
    var found: seq<Part> := [];
    var number: string := [];
    var start: nat := 0;
    assert text[|text| - 1] == '.';
    AppendNothing(PartsFrom(row, text, 0));
    for i := 0 to |text|
      invariant number == [] ==> PartsFrom(row, text, 0) == Append(found, PartsFrom(row, text, i))
      invariant number != [] ==> (start < i && text[start..i] == number &&
        (forall k :: start <= k < i ==> IsDigit(text[k])) &&
        PartsFrom(row, text, 0) == Append(found, PartsFrom(row, text, start)))
      invariant i == |text| ==> number == []
    {
      var c := text[i];
      if IsDigit(c) {
        if number == [] {
          start := i;
        }
        number := number + [c];
      } else if number != [] {
        PartsFromRun(row, text, start, i);
        var value := ParseU32(number);
        if value.None? {
          return None;
        }
        var part := Part(value.value, Point(start, row), Point(i - 1, row));
        AppendAppend(found, [part], PartsFrom(row, text, i + 1));
        found := found + [part];
        number := [];
      } else {
        PartsFromSkip(row, text, i);
      }
    }
    assert found + [] == found;
    return Some(found);
  }

  /** Every part of a row is a maximal run of digits of the row with its
      value, the runs left to right; a run at the very end of the row is
      kept, since the '.' put after the row closes it. */
  lemma RowPartsSpec(row: nat, line: string)
    ensures var r := RowParts(row, line);
      r.Some? ==>
        (forall k :: 0 <= k < |r.value| ==> RunPart(row, line + ".", r.value[k]) && r.value[k].end.x < |line|) &&
        (forall k :: 0 < k < |r.value| ==> r.value[k - 1].end.x + 1 < r.value[k].start.x)
  {
    var text := line + ".";
    PartsFromSpec(row, text, 0);
    var r := RowParts(row, line);
    assert r == PartsFrom(row, text, 0);
    if r.Some? {
      forall k | 0 <= k < |r.value|
        ensures RunPart(row, text, r.value[k]) && r.value[k].end.x < |line|
      {
        assert RunPart(row, text, r.value[k]);
      }
    }
  }

  /** A maximal run of digits of `text` from `a` up to `b`, starting at or
      after `i`: a non-digit (or the start) before it and a non-digit
      after it. */
  ghost predicate MaximalRun(text: string, i: nat, a: nat, b: nat)
  {
    i <= a < b < |text| && (a == 0 || !IsDigit(text[a - 1])) &&
    (forall k :: a <= k < b ==> IsDigit(text[k])) && !IsDigit(text[b])
  }

  /** The run of digits that starts at `a` ends where the maximal run does. */
  lemma RunEndOfMaximal(text: string, i: nat, a: nat, b: nat)
    requires MaximalRun(text, i, a, b)
    ensures RunEnd(text, a) == b
  {
    assert !IsDigit(text[b]);
  }

  /** When the scan from `i` succeeds, every maximal run from `i` on reads as
      a `u32` and its part is among the parts found. */
  lemma {:induction false} PartsFromComplete(row: nat, text: string, i: nat, a: nat, b: nat)
    requires i <= |text| && (i == 0 || !IsDigit(text[i - 1]))
    requires MaximalRun(text, i, a, b) && PartsFrom(row, text, i).Some?
    ensures ParseU32(text[a..b]).Some?
    ensures Part(ParseU32(text[a..b]).value, Point(a, row), Point(b - 1, row)) in PartsFrom(row, text, i).value
    decreases |text| - i
  {
    if i == a {
      RunEndOfMaximal(text, i, a, b);
      PartsFromRun(row, text, a, b);
    } else if !IsDigit(text[i]) {
      PartsFromSkip(row, text, i);
      PartsFromComplete(row, text, i + 1, a, b);
    } else {
      var j := RunEnd(text, i);
      assert !IsDigit(text[a - 1]);
      PartsFromRun(row, text, i, j);
      PartsFromComplete(row, text, j + 1, a, b);
    }
  }

  /** The scan from `i` panics exactly when some maximal run from `i` on
      does not read as a `u32`. */
  lemma {:induction false} PartsFromFails(row: nat, text: string, i: nat)
    requires i <= |text| && (i == 0 || !IsDigit(text[i - 1]))
    ensures PartsFrom(row, text, i).None? <==>
      exists a: nat, b: nat :: MaximalRun(text, i, a, b) && ParseU32(text[a..b]).None?
    decreases |text| - i
  {
    if PartsFrom(row, text, i).Some? {
      forall a: nat, b: nat | MaximalRun(text, i, a, b)
        ensures ParseU32(text[a..b]).Some?
      {
        PartsFromComplete(row, text, i, a, b);
      }
    } else if !IsDigit(text[i]) {
      PartsFromSkip(row, text, i);
      PartsFromFails(row, text, i + 1);
      var a: nat, b: nat :| MaximalRun(text, i + 1, a, b) && ParseU32(text[a..b]).None?;
      assert MaximalRun(text, i, a, b);
    } else {
      var j := RunEnd(text, i);
      PartsFromRun(row, text, i, j);
      assert MaximalRun(text, i, i, j);
      if ParseU32(text[i..j]).Some? {
        PartsFromFails(row, text, j + 1);
        var a: nat, b: nat :| MaximalRun(text, j + 1, a, b) && ParseU32(text[a..b]).None?;
        assert MaximalRun(text, i, a, b);
      }
    }
  }

  /** A maximal run of digits of the row itself, from `a` up to `b`: a run
      that reaches the end of the row counts, since the '.' put after the
      row closes it. */
  ghost predicate RowRun(line: string, a: nat, b: nat)
  {
    a < b <= |line| && (a == 0 || !IsDigit(line[a - 1])) &&
    (forall k :: a <= k < b ==> IsDigit(line[k])) && (b == |line| || !IsDigit(line[b]))
  }

  /** A maximal run of the row is a maximal run of the row with '.' after
      it, and the other way round. */
  lemma RowRunIff(line: string, a: nat, b: nat)
    ensures RowRun(line, a, b) <==> MaximalRun(line + ".", 0, a, b)
    ensures RowRun(line, a, b) ==> (line + ".")[a..b] == line[a..b]
  {
    var text := line + ".";
    assert forall k :: 0 <= k < |line| ==> text[k] == line[k];
    assert text[|line|] == '.';
  }

  /** Every maximal run of digits of a row whose scan succeeds is one of its
      parts, with the run's value and its first and last column. */
  lemma RowPartsComplete(row: nat, line: string, a: nat, b: nat)
    requires RowRun(line, a, b) && RowParts(row, line).Some?
    ensures ParseU32(line[a..b]).Some?
    ensures Part(ParseU32(line[a..b]).value, Point(a, row), Point(b - 1, row)) in RowParts(row, line).value
  {
    RowRunIff(line, a, b);
    PartsFromComplete(row, line + ".", 0, a, b);
  }

  /** The scan of a row panics exactly when some maximal run of digits of the
      row is not a `u32`. */
  lemma RowPartsFails(row: nat, line: string)
    ensures RowParts(row, line).None? <==> exists a: nat, b: nat :: RowRun(line, a, b) && ParseU32(line[a..b]).None?
  {
    var text := line + ".";
    PartsFromFails(row, text, 0);
    if RowParts(row, line).None? {
      var a: nat, b: nat :| MaximalRun(text, 0, a, b) && ParseU32(text[a..b]).None?;
      RowRunIff(line, a, b);
    } else {
      forall a: nat, b: nat | RowRun(line, a, b)
        ensures ParseU32(line[a..b]).Some?
      {
        RowPartsComplete(row, line, a, b);
      }
    }
  }

  /** A symbol character: neither a digit nor '.'. */
  predicate IsSymbolChar(c: char) { !IsDigit(c) && c != '.' }

  /** The symbols among the first `|prefix|` characters of row `row`, left
      to right, each at its own column. */
  function SymbolsOf(row: nat, prefix: string): seq<Symbol>
  {
    if prefix == [] then []
    else
      var last := |prefix| - 1;
      SymbolsOf(row, prefix[..last]) +
        (if IsSymbolChar(prefix[last]) then [Symbol(prefix[last], Point(last, row))] else [])
  }

  /** Each symbol is a symbol character of row `row` standing at its own
      position among the first `|prefix|` characters. */
  predicate SymbolsAt(row: nat, prefix: string, symbols: seq<Symbol>)
  {
    forall k :: 0 <= k < |symbols| ==>
      symbols[k].position.y == row && symbols[k].position.x < |prefix| &&
      prefix[symbols[k].position.x] == symbols[k].value && IsSymbolChar(symbols[k].value)
  }

  /** The symbols come left to right. */
  predicate LeftToRight(symbols: seq<Symbol>)
  {
    forall k :: 0 < k < |symbols| ==> symbols[k - 1].position.x < symbols[k].position.x
  }

  /** Every symbol found is a symbol character of the row at its own
      position, and the symbols come left to right. */
  lemma {:induction false} SymbolsOfSound(row: nat, prefix: string)
    ensures SymbolsAt(row, prefix, SymbolsOf(row, prefix)) && LeftToRight(SymbolsOf(row, prefix))
  {
    if prefix != [] {
      var last := |prefix| - 1;
      SymbolsOfSound(row, prefix[..last]);
      SymbolsAppend(row, prefix, SymbolsOf(row, prefix[..last]));
    }
  }

  /** The symbols of all but the last character, followed by the last one
      when it is a symbol character, stand at their own positions left to
      right. */
  lemma SymbolsAppend(row: nat, prefix: string, before: seq<Symbol>)
    requires prefix != [] && SymbolsAt(row, prefix[..|prefix| - 1], before) && LeftToRight(before)
    ensures var last := |prefix| - 1;
      var after := before + (if IsSymbolChar(prefix[last]) then [Symbol(prefix[last], Point(last, row))] else []);
      SymbolsAt(row, prefix, after) && LeftToRight(after)
  {
    var last := |prefix| - 1;
    assert forall k :: 0 <= k < |before| ==> prefix[..last][before[k].position.x] == prefix[before[k].position.x];
  }

  /** Every symbol character of the row is found, at its own position. */
  lemma {:induction false} SymbolsOfComplete(row: nat, prefix: string, x: nat)
    requires x < |prefix| && IsSymbolChar(prefix[x])
    ensures Symbol(prefix[x], Point(x, row)) in SymbolsOf(row, prefix)
  {
    var last := |prefix| - 1;
    if x < last {
      SymbolsOfComplete(row, prefix[..last], x);
    }
  }

  /** `extract_symbols_from_row`: every character that is neither a digit
      nor '.', with its position, left to right. */
  method ExtractSymbolsFromRow(row: nat, line: string) returns (symbols: seq<Symbol>)
    ensures symbols == SymbolsOf(row, line)
  {
    symbols := [];
    for i := 0 to |line|
      invariant symbols == SymbolsOf(row, line[..i])
    {
      assert line[..i + 1][..i] == line[..i];
      if IsSymbolChar(line[i]) {
        symbols := symbols + [Symbol(line[i], Point(i, row))];
      }
    }
    assert line[..|line|] == line;
  }

  /** A character of the row is found as a symbol exactly when it is a
      symbol character. */
  lemma SymbolsOfRow(row: nat, line: string, x: nat)
    requires x < |line|
    ensures Symbol(line[x], Point(x, row)) in SymbolsOf(row, line) <==> IsSymbolChar(line[x])
  {
    SymbolsOfSound(row, line);
    if IsSymbolChar(line[x]) {
      SymbolsOfComplete(row, line, x);
    }
  }

  /** The parts of every row, row after row; `None` when a row panics. */
  function AllParts(input: seq<string>): Option<seq<Part>>
  {
    if input == [] then Some([])
    else
      var last := |input| - 1;
      match AllParts(input[..last])
      case None => None
      case Some(parts) => Append(parts, RowParts(last, input[last]))
  }

  /** The symbols of every row, row after row. */
  function AllSymbols(input: seq<string>): seq<Symbol>
  {
    if input == [] then []
    else
      var last := |input| - 1;
      AllSymbols(input[..last]) + SymbolsOf(last, input[last])
  }

  /** How many of the symbols a part is next to. */
  function AdjacentCount(part: Part, symbols: seq<Symbol>): (n: nat)
    ensures n <= |symbols|
  {
    if symbols == [] then 0
    else
      var last := |symbols| - 1;
      AdjacentCount(part, symbols[..last]) + (if AdjacentToSymbol(part, symbols[last]) then 1 else 0)
  }

  /** The answer of part one: each part's value once for every symbol it is
      next to. */
  function AdjacentSum(parts: seq<Part>, symbols: seq<Symbol>): nat
  {
    if parts == [] then 0
    else
      var last := |parts| - 1;
      AdjacentSum(parts[..last], symbols) + parts[last].value * AdjacentCount(parts[last], symbols)
  }

  /** A part next to no symbol adds nothing to the answer. */
  lemma LonelyPartAddsNothing(parts: seq<Part>, part: Part, symbols: seq<Symbol>)
    requires forall k :: 0 <= k < |symbols| ==> !AdjacentToSymbol(part, symbols[k])
    ensures AdjacentSum(parts + [part], symbols) == AdjacentSum(parts, symbols)
  {
    NoAdjacentSymbol(part, symbols);
    AdjacentSumAppend(parts, part, symbols);
    assert part.value * AdjacentCount(part, symbols) == 0;
  }

  /** A part put after the others adds its value once per symbol it is
      next to. */
  lemma AdjacentSumAppend(parts: seq<Part>, part: Part, symbols: seq<Symbol>)
    ensures AdjacentSum(parts + [part], symbols) == AdjacentSum(parts, symbols) + part.value * AdjacentCount(part, symbols)
  {
    assert (parts + [part])[..|parts|] == parts;
  }

  lemma AdjacentCountStep(part: Part, symbols: seq<Symbol>, j: nat)
    requires j < |symbols|
    ensures AdjacentCount(part, symbols[..j + 1]) ==
      AdjacentCount(part, symbols[..j]) + if AdjacentToSymbol(part, symbols[j]) then 1 else 0
  {
    assert symbols[..j + 1][..j] == symbols[..j];
  }

  lemma MulStep(value: nat, count: nat, step: nat)
    ensures value * (count + step) == value * count + value * step
  {
  }

  lemma {:induction false} NoAdjacentSymbol(part: Part, symbols: seq<Symbol>)
    requires forall k :: 0 <= k < |symbols| ==> !AdjacentToSymbol(part, symbols[k])
    ensures AdjacentCount(part, symbols) == 0
  {
    if symbols != [] {
      NoAdjacentSymbol(part, symbols[..|symbols| - 1]);
    }
  }

  /** A part next to every symbol adds its value once per symbol. */
  lemma {:induction false} AllAdjacentSymbols(part: Part, symbols: seq<Symbol>)
    requires forall k :: 0 <= k < |symbols| ==> AdjacentToSymbol(part, symbols[k])
    ensures AdjacentCount(part, symbols) == |symbols|
  {
    if symbols != [] {
      AllAdjacentSymbols(part, symbols[..|symbols| - 1]);
    }
  }

  /** The answer never exceeds the sum of the values times the number of
      symbols. */
  lemma {:induction false} AdjacentSumBound(parts: seq<Part>, symbols: seq<Symbol>, bound: nat)
    requires forall k :: 0 <= k < |parts| ==> parts[k].value <= bound
    ensures AdjacentSum(parts, symbols) <= |parts| * bound * |symbols|
  {
    if parts != [] {
      var last := |parts| - 1;
      AdjacentSumBound(parts[..last], symbols, bound);
      BoundStep(AdjacentSum(parts[..last], symbols), last, bound, |symbols|,
        parts[last].value, AdjacentCount(parts[last], symbols));
    }
  }

  lemma BoundStep(sum: nat, n: nat, bound: nat, width: nat, value: nat, count: nat)
    requires sum <= n * bound * width && value <= bound && count <= width
    ensures sum + value * count <= (n + 1) * bound * width
  {
    assert value * count <= bound * width by {
      assert value * count <= bound * count;
      assert bound * count <= bound * width;
    }
    assert (n + 1) * bound * width == n * bound * width + bound * width;
  }

  /** How many symbols one part is next to, counted by the inner loop of
      `run_a` and added to `result` as the part's value each time. */
  method AddPart(part: Part, symbols: seq<Symbol>, result: nat) returns (next: nat)
    ensures next == result + part.value * AdjacentCount(part, symbols)
  {
    next := result;
    for j := 0 to |symbols|
      invariant next == result + part.value * AdjacentCount(part, symbols[..j])
    {
      AdjacentCountStep(part, symbols, j);
      var adjacent := IsAdjacentToSymbol(part, symbols[j]);
      MulStep(part.value, AdjacentCount(part, symbols[..j]), if adjacent then 1 else 0);
      if adjacent {
        next := next + part.value;
      }
    }
    assert symbols[..|symbols|] == symbols;
  }

  /** `run_a`: the parts and symbols of every row collected, then each part's
      value added once for every symbol next to it, printed. `None` when a
      part's value overflows a `u32`. */
  method RunA(input: seq<string>) returns (r: Option<string>)
    ensures AllParts(input).None? ==> r.None?
    ensures AllParts(input).Some? ==> r == Some(ShowNat(AdjacentSum(AllParts(input).value, AllSymbols(input))))
  {
    var parts: seq<Part> := [];
    var symbols: seq<Symbol> := [];
    for i := 0 to |input|
      invariant AllParts(input[..i]) == Some(parts)
      invariant AllSymbols(input[..i]) == symbols
    {
      assert input[..i + 1][..i] == input[..i];
      var partsInLine := ExtractPartsFromRow(i, input[i]);
      if partsInLine.None? {
        AllPartsFails(input, i);
        return None;
      }
      parts := parts + partsInLine.value;
      var symbolsInLine := ExtractSymbolsFromRow(i, input[i]);
      symbols := symbols + symbolsInLine;
    }
    assert input[..|input|] == input;
    var result := 0;
    for i := 0 to |parts|
      invariant result == AdjacentSum(parts[..i], symbols)
    {
      assert parts[..i + 1][..i] == parts[..i];
      result := AddPart(parts[i], symbols, result);
    }
    assert parts[..|parts|] == parts;
    return Some(ShowNat(result));
  }

  /** A row whose parts panic makes the whole collection panic. */
  lemma {:induction false} AllPartsFails(input: seq<string>, i: nat)
    requires i < |input| && RowParts(i, input[i]).None?
    ensures AllParts(input).None?
    decreases |input|
  {
    var last := |input| - 1;
    if i < last {
      assert input[..last][i] == input[i];
      AllPartsFails(input[..last], i);
    }
  }

  /** The collection panics only when the parts of some row panic. */
  lemma {:induction false} AllPartsFailsOnlyThere(input: seq<string>)
    requires AllParts(input).None?
    ensures exists i :: 0 <= i < |input| && RowParts(i, input[i]).None?
    decreases |input|
  {
    var last := |input| - 1;
    if AllParts(input[..last]).None? {
      AllPartsFailsOnlyThere(input[..last]);
      var i :| 0 <= i < last && RowParts(i, input[..last][i]).None?;
      assert input[..last][i] == input[i];
    } else {
      assert RowParts(last, input[last]).None?;
    }
  }

  /** `run_b`: part two is not solved; it prints 0. */
  method RunB(input: seq<string>) returns (r: string)
    ensures r == ShowNat(0)
  {
    return ShowNat(0);
  }
}
