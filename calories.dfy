/** The calorie inventory of 2022 day 1: blank lines separate the elves, each
    elf's block lists one number of calories per line. Part one is the largest
    total, part two the sum of the three largest. */
module CalorieCounting {
  import opened Text
  import Arith

  /** `sep` starts at position `i` of `s`. */
  predicate OccursAt(s: string, sep: string, i: nat)
  {
    i + |sep| <= |s| && s[i..i + |sep|] == sep
  }

  /** The first position from `start` on at which `sep` starts. */
  function FindFrom(s: string, sep: string, start: nat): (r: Option<nat>)
    requires sep != []
    ensures r.Some? ==> start <= r.value && OccursAt(s, sep, r.value)
    ensures r.Some? ==> forall i :: start <= i < r.value ==> !OccursAt(s, sep, i)
    ensures r.None? ==> forall i :: start <= i ==> !OccursAt(s, sep, i)
    decreases |s| - start
  {
    if start + |sep| > |s| then None
    else if OccursAt(s, sep, start) then Some(start)
    else FindFrom(s, sep, start + 1)
  }

  /** `str::split(sep)` for a separator of several characters: the pieces
      between the occurrences found from left to right. */
  function SplitStr(s: string, sep: string): (parts: seq<string>)
    requires sep != []
    ensures |parts| >= 1
    decreases |s|
  {
    match FindFrom(s, sep, 0)
    case None => [s]
    case Some(i) => [s[..i]] + SplitStr(s[i + |sep|..], sep)
  }

  /** Where `str::split` cuts: every piece but the last runs up to the first
      separator after it, and the last piece holds none. */
  predicate CutAtFirst(parts: seq<string>, sep: string)
    requires sep != []
  {
    |parts| >= 1 &&
    (forall k :: 0 <= k < |parts| - 1 ==> FindFrom(parts[k] + sep, sep, 0) == Some(|parts[k]|)) &&
    FindFrom(parts[|parts| - 1], sep, 0).None?
  }

  lemma CutAtFirstCons(piece: string, parts: seq<string>, sep: string)
    requires sep != [] && CutAtFirst(parts, sep)
    requires FindFrom(piece + sep, sep, 0) == Some(|piece|)
    ensures CutAtFirst([piece] + parts, sep)
  {
    var all := [piece] + parts;
    forall k | 0 <= k < |all| - 1
      ensures FindFrom(all[k] + sep, sep, 0) == Some(|all[k]|)
    {
      if k > 0 {
        assert all[k] == parts[k - 1];
      }
    }
    assert all[|all| - 1] == parts[|parts| - 1];
  }

  /** The first occurrence at `i` is also the first in the text up to it with
      the separator put back. */
  lemma FirstCut(s: string, sep: string, i: nat)
    requires sep != [] && FindFrom(s, sep, 0) == Some(i)
    ensures FindFrom(s[..i] + sep, sep, 0) == Some(i)
  {
    var t := s[..i] + sep;
    assert t == s[..i + |sep|];
    forall j | 0 <= j < i
      ensures !OccursAt(t, sep, j)
    {
      assert !OccursAt(s, sep, j);
      assert t[j..j + |sep|] == s[j..j + |sep|];
    }
    assert OccursAt(t, sep, i);
  }

  /** Conversely, a piece whose first occurrence is the separator after it
      keeps that first occurrence whatever text follows. */
  lemma FirstCutExtends(piece: string, sep: string, rest: string)
    requires sep != [] && FindFrom(piece + sep, sep, 0) == Some(|piece|)
    ensures FindFrom(piece + sep + rest, sep, 0) == Some(|piece|)
  {
    var t := piece + sep;
    var u := t + rest;
    forall j | 0 <= j < |piece|
      ensures !OccursAt(u, sep, j)
    {
      assert !OccursAt(t, sep, j);
      assert u[j..j + |sep|] == t[j..j + |sep|];
    }
    assert u[|piece|..|piece| + |sep|] == sep;
    assert OccursAt(u, sep, |piece|);
  }

  /** `str::split` cuts at each first separator: every piece but the last runs
      up to the first separator after it, and the last piece holds none. */
  lemma {:induction false} SplitStrCuts(s: string, sep: string)
    requires sep != []
    ensures CutAtFirst(SplitStr(s, sep), sep)
    decreases |s|
  {
    match FindFrom(s, sep, 0)
    case None =>
    case Some(i) =>
      var rest := s[i + |sep|..];
      SplitStrCuts(rest, sep);
      FirstCut(s, sep, i);
      CutAtFirstCons(s[..i], SplitStr(rest, sep), sep);
  }

  /** The cuts determine the pieces: pieces that join to `s`, each but the
      last running up to the first separator and the last holding none, are
      the pieces `str::split` gives. */
  lemma {:induction false} SplitStrUnique(s: string, sep: string, parts: seq<string>)
    requires sep != [] && CutAtFirst(parts, sep) && JoinStr(parts, sep) == s
    ensures SplitStr(s, sep) == parts
    decreases |parts|
  {
    if |parts| > 1 {
      var rest := JoinStr(parts[1..], sep);
      assert FindFrom(parts[0] + sep, sep, 0) == Some(|parts[0]|);
      assert SplitStr(s, sep) == [parts[0]] + SplitStr(rest, sep) by {
        SplitStrStep(parts[0], sep, rest);
      }
      assert SplitStr(rest, sep) == parts[1..] by {
        CutAtFirstTail(parts, sep);
        SplitStrUnique(rest, sep, parts[1..]);
      }
      assert parts == [parts[0]] + parts[1..];
    }
  }

  /** A piece that runs up to the first separator is the first piece of the
      split. */
  lemma SplitStrStep(piece: string, sep: string, rest: string)
    requires sep != [] && FindFrom(piece + sep, sep, 0) == Some(|piece|)
    ensures SplitStr(piece + sep + rest, sep) == [piece] + SplitStr(rest, sep)
  {
    var s := piece + sep + rest;
    var n := |piece|;
    FirstCutExtends(piece, sep, rest);
    assert s[..n] == piece && s[n + |sep|..] == rest;
  }

  lemma CutAtFirstTail(parts: seq<string>, sep: string)
    requires sep != [] && CutAtFirst(parts, sep) && |parts| > 1
    ensures CutAtFirst(parts[1..], sep)
  {
    assert forall k :: 0 <= k < |parts| - 2 ==> parts[1..][k] == parts[k + 1];
    assert parts[1..][|parts| - 2] == parts[|parts| - 1];
  }

  /** The pieces joined again with the separator. */
  function JoinStr(parts: seq<string>, sep: string): string
    requires |parts| >= 1
  {
    if |parts| == 1 then parts[0] else parts[0] + sep + JoinStr(parts[1..], sep)
  }

  /** Splitting loses nothing: joining the pieces gives the text back. */
  lemma {:induction false} JoinSplitStr(s: string, sep: string)
    requires sep != []
    ensures JoinStr(SplitStr(s, sep), sep) == s
    decreases |s|
  {
    match FindFrom(s, sep, 0)
    case None =>
    case Some(i) =>
      var rest := s[i + |sep|..];
      var parts := SplitStr(s, sep);
      assert parts == [s[..i]] + SplitStr(rest, sep);
      assert parts[0] == s[..i] && parts[1..] == SplitStr(rest, sep);
      JoinSplitStr(rest, sep);
      assert s == s[..i] + s[i..i + |sep|] + rest;
  }

  /** `get_elfs_inventory`: the blocks between blank lines. */
  function ElfInventories(inventory: string): (blocks: seq<string>)
    ensures |blocks| >= 1 && JoinStr(blocks, "\n\n") == inventory
    ensures CutAtFirst(blocks, "\n\n")
  {
    JoinSplitStr(inventory, "\n\n");
    SplitStrCuts(inventory, "\n\n");
    SplitStr(inventory, "\n\n")
  }

  /** The fold `acc + x.parse::<u32>().unwrap()` over the lines of a block,
      from 0; a line that does not parse panics. */
  function CaloriesOf(lines: seq<string>): Option<nat>
  {
    if lines == [] then Some(0)
    else
      match ParseU32(lines[0])
      case None => None
      case Some(n) =>
        match CaloriesOf(lines[1..])
        case None => None
        case Some(rest) => Some(n + rest)
  }

  /** The fold is the sum of the parsed numbers, and fails exactly when one of
      them does not parse. */
  lemma {:induction false} CaloriesOfIsSum(lines: seq<string>)
    ensures CaloriesOf(lines).Some? <==> ParseU32s(lines).Some?
    ensures CaloriesOf(lines).Some? ==> CaloriesOf(lines).value == Arith.Sum(ParseU32s(lines).value)
  {
    if lines != [] {
      CaloriesOfIsSum(lines[1..]);
      if ParseU32s(lines).Some? {
        var ns := ParseU32s(lines).value;
        assert ns == [ns[0]] + ns[1..];
        assert ParseU32s(lines[1..]) == Some(ns[1..]);
        Arith.SumFront(ns);
      }
    }
  }

  /** `get_elf_calories`. */
  function ElfCalories(block: string): Option<nat>
  {
    CaloriesOf(Split(block, '\n'))
  }

  /** The second form in `main`: `reduce(|acc, x| acc + x)` over the parsed
      lines, with no initial 0. */
  function ReduceCalories(lines: seq<string>): Option<nat>
    requires lines != []
  {
    match ParseU32(lines[0])
    case None => None
    case Some(n) =>
      if |lines| == 1 then Some(n)
      else
        match ReduceCalories(lines[1..])
        case None => None
        case Some(rest) => Some(n + rest)
  }

  /** Both forms of `main` compute the same totals: `split` never yields an
      empty list, so the reduction starts on the first number just as the
      fold adds it to 0. */
  lemma {:induction false} ReduceIsFold(lines: seq<string>)
    requires lines != []
    ensures ReduceCalories(lines) == CaloriesOf(lines)
  {
    if |lines| > 1 {
      ReduceIsFold(lines[1..]);
    } else {
      assert lines[1..] == [];
    }
  }

  /** The lines of an elf's block, numbers written in decimal. */
  function LinesOf(calories: seq<nat>): (lines: seq<string>)
    ensures |lines| == |calories| && forall k :: 0 <= k < |lines| ==> lines[k] == ShowNat(calories[k])
  {
    seq(|calories|, k requires 0 <= k < |calories| => ShowNat(calories[k]))
  }

  /** A block written from some numbers gives back their sum. */
  lemma BlockRoundTrip(calories: seq<nat>)
    requires calories != []
    requires forall k :: 0 <= k < |calories| ==> calories[k] <= U32_MAX
    ensures ElfCalories(Join(LinesOf(calories), '\n')) == Some(Arith.Sum(calories))
  {
    var lines := LinesOf(calories);
    forall k | 0 <= k < |lines| ensures '\n' !in lines[k] && ParseU32(lines[k]) == Some(calories[k]) {
      ShowNatHasNoBreak(calories[k]);
      ParseShowNat(calories[k]);
    }
    SplitJoin(lines, '\n');
    CaloriesOfIsSum(lines);
    ParseU32sOf(lines, calories);
  }

  lemma {:induction false} ParseU32sOf(lines: seq<string>, values: seq<nat>)
    requires |lines| == |values|
    requires forall k :: 0 <= k < |lines| ==> ParseU32(lines[k]) == Some(values[k])
    ensures ParseU32s(lines) == Some(values)
  {
    if lines != [] {
      ParseU32sOf(lines[1..], values[1..]);
      assert values == [values[0]] + values[1..];
    }
  }

  /** The source's test: the block "1000\n2000\n3000" holds 6000 calories. */
  lemma ElfCaloriesExample()
    ensures ElfCalories("1000\n2000\n3000") == Some(6000)
  {
    var calories := [1000, 2000, 3000];
    SampleLines();
    BlockRoundTrip(calories);
    SampleSum();
  }

  lemma SampleLines()
    ensures Join(LinesOf([1000, 2000, 3000]), '\n') == "1000\n2000\n3000"
  {
    SampleNumbers();
    assert LinesOf([1000, 2000, 3000]) == ["1000", "2000", "3000"];
  }

  lemma SampleNumbers()
    ensures ShowNat(1000) == "1000" && ShowNat(2000) == "2000" && ShowNat(3000) == "3000"
  {
  }

  lemma SampleSum()
    ensures Arith.Sum([1000, 2000, 3000]) == 6000
  {
    assert [1000, 2000, 3000][..2] == [1000, 2000] && [1000, 2000][..1] == [1000] && [1000][..0] == [];
  }

  /** The totals of all the elves, in order. */
  function TotalsOf(blocks: seq<string>): (r: Option<seq<nat>>)
    ensures r.Some? ==> |r.value| == |blocks|
    ensures r.Some? ==> forall k :: 0 <= k < |blocks| ==> ElfCalories(blocks[k]) == Some(r.value[k])
  {
    if blocks == [] then Some([])
    else
      match ElfCalories(blocks[0])
      case None => None
      case Some(n) =>
        match TotalsOf(blocks[1..])
        case None => None
        case Some(rest) => Some([n] + rest)
  }

  /** `elf_calories`: the total of every elf of the trimmed input. */
  function ElfTotals(input: string): (r: Option<seq<nat>>)
    ensures r.Some? ==> r.value != []
  {
    TotalsOf(ElfInventories(Trim(input)))
  }

  /** Part one: the largest total. `max()` cannot fail, as there is always at
      least one elf. */
  function PartOne(input: string): (r: Option<nat>)
    ensures r.Some? <==> ElfTotals(input).Some?
    ensures r.Some? ==>
      (r.value in ElfTotals(input).value &&
       forall k :: 0 <= k < |ElfTotals(input).value| ==> ElfTotals(input).value[k] <= r.value)
  {
    match ElfTotals(input)
    case None => None
    case Some(totals) => Some(Arith.Max(totals))
  }

  /** Sorted from the largest down. */
  predicate Descending(s: seq<nat>)
  {
    forall i, j :: 0 <= i < j < |s| ==> s[i] >= s[j]
  }

  /** `x` put in its place in a descending sequence. */
  function Insert(x: nat, s: seq<nat>): (r: seq<nat>)
    requires Descending(s)
    ensures Descending(r) && multiset(r) == multiset(s) + multiset{x}
  {
    if s == [] || x >= s[0] then
      assert forall k :: 0 <= k < |s| ==> x >= s[k];
      PrependDescending(x, s);
      [x] + s
    else
      var rest := Insert(x, s[1..]);
      BoundedByFirst(s, x, rest);
      PrependDescending(s[0], rest);
      assert s == [s[0]] + s[1..];
      [s[0]] + rest
  }

  /** A value no smaller than any element, put first, keeps a sequence
      descending. */
  lemma PrependDescending(x: nat, s: seq<nat>)
    requires Descending(s) && forall k :: 0 <= k < |s| ==> s[k] <= x
    ensures Descending([x] + s)
  {
  }

  /** What is inserted after the first element of a descending sequence is no
      larger than that element. */
  lemma BoundedByFirst(s: seq<nat>, x: nat, rest: seq<nat>)
    requires s != [] && Descending(s) && x < s[0]
    requires multiset(rest) == multiset(s[1..]) + multiset{x}
    ensures forall k :: 0 <= k < |rest| ==> rest[k] <= s[0]
  {
    forall k | 0 <= k < |rest| ensures rest[k] <= s[0] {
      assert rest[k] in multiset(rest);
      if rest[k] != x {
        assert rest[k] in multiset(s[1..]);
        var j :| 0 <= j < |s[1..]| && s[1..][j] == rest[k];
        assert s[j + 1] == rest[k];
      }
    }
  }

  /** `sort_by(|a, b| b.cmp(a))`: the totals from the largest down. */
  function SortDescending(s: seq<nat>): (r: seq<nat>)
    ensures Descending(r) && multiset(r) == multiset(s)
  {
    if s == [] then []
    else
      var sorted := SortDescending(s[1..]);
      assert s == [s[0]] + s[1..];
      Insert(s[0], sorted)
  }

  /** The first of the sorted totals is the largest one: what part one prints. */
  lemma SortedStartsWithMax(s: seq<nat>)
    requires s != []
    ensures SortDescending(s)[0] == Arith.Max(s)
  {
    var sorted := SortDescending(s);
    assert |sorted| == |multiset(s)| == |s|;
    assert sorted[0] in multiset(s);
    assert Arith.Max(s) in multiset(sorted);
    var j :| 0 <= j < |sorted| && sorted[j] == Arith.Max(s);
    assert sorted[0] >= sorted[j];
  }

  /** Part two: the sum of the first three totals once sorted; fewer than three
      elves make the slice `[0..3]` panic. */
  function PartTwo(input: string): (r: Option<nat>)
    ensures r.Some? ==> ElfTotals(input).Some? && |ElfTotals(input).value| >= 3
  {
    match ElfTotals(input)
    case None => None
    case Some(totals) =>
      if |totals| < 3 then None
      else
        var sorted := SortDescending(totals);
        assert |sorted| == |multiset(totals)| == |totals|;
        Some(sorted[0] + sorted[1] + sorted[2])
  }

  /** No elf outside the top three carries more than any of them. */
  lemma TopThreeDominate(totals: seq<nat>, k: nat)
    requires |totals| >= 3 && 3 <= k < |totals|
    ensures var sorted := SortDescending(totals);
      |sorted| == |totals| && sorted[k] <= sorted[2] <= sorted[1] <= sorted[0]
  {
    var sorted := SortDescending(totals);
    assert |sorted| == |multiset(totals)| == |totals|;
  }
}
