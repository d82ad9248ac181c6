/** The two location lists of 2024 day 1: each input line holds a number of
    the left list and one of the right list. Part one pairs the lists once
    both are sorted and adds up the distances of the pairs; part two adds
    up every left number times how often it appears in the right list. */
module HistorianHysteria {
  import opened Text
  import Arith

  /** The first two whitespace-separated columns of a line, read with
      `int`; a line with fewer than two columns or a column that is no
      integer raises, which is `None`. Further columns are not read. */
  function Columns(line: string): Option<(int, int)>
  {
    var columns := Words(line);
    if |columns| < 2 then None
    else
      match (PyInt(columns[0]), PyInt(columns[1]))
      case (Some(left), Some(right)) => Some((left, right))
      case _ => None
  }

  /** Both lists read from the lines, line by line. */
  function Lists(input: seq<string>): Option<(seq<int>, seq<int>)>
  {
    ListsBy(Columns, input)
  }

  /** Both lists, with each line read by `columns`. */
  function ListsBy(columns: string -> Option<(int, int)>, input: seq<string>): Option<(seq<int>, seq<int>)>
  {
    if input == [] then Some(([], []))
    else
      var last := |input| - 1;
      match (ListsBy(columns, input[..last]), columns(input[last]))
      case (Some((left, right)), Some((l, r))) => Some((left + [l], right + [r]))
      case _ => None
  }

  /** Both lists have one entry per line, taken from that line's first and
      second column; they fail exactly when some line does. */
  lemma ListsSpec(input: seq<string>)
    ensures var r := Lists(input);
      (r.Some? <==> forall k :: 0 <= k < |input| ==> Columns(input[k]).Some?) &&
      (r.Some? ==>
        |r.value.0| == |input| && |r.value.1| == |input| &&
        forall k :: 0 <= k < |input| ==> Columns(input[k]) == Some((r.value.0[k], r.value.1[k])))
  {
    ListsBySpec(Columns, input);
  }

  lemma {:induction false} ListsBySpec(columns: string -> Option<(int, int)>, input: seq<string>)
    ensures var r := ListsBy(columns, input);
      (r.Some? <==> forall k :: 0 <= k < |input| ==> columns(input[k]).Some?) &&
      (r.Some? ==>
        |r.value.0| == |input| && |r.value.1| == |input| &&
        forall k :: 0 <= k < |input| ==> columns(input[k]) == Some((r.value.0[k], r.value.1[k])))
  {
    if input != [] {
      var last := |input| - 1;
      ListsBySpec(columns, input[..last]);
      assert forall k :: 0 <= k < last ==> input[..last][k] == input[k];
    }
  }

  /** `get_lists_from_input`: both columns appended line by line. */
  method GetListsFromInput(input: seq<string>) returns (r: Option<(seq<int>, seq<int>)>)
    ensures r == Lists(input)
  {
    var left: seq<int> := [];
    var right: seq<int> := [];
    for i := 0 to |input|
      invariant Lists(input[..i]) == Some((left, right))
    {
      assert input[..i + 1][..i] == input[..i];
      var columns := Columns(input[i]);
      if columns.None? {
        ListsFailAt(input, i);
        return None;
      }
      left := left + [columns.value.0];
      right := right + [columns.value.1];
    }
    assert input[..|input|] == input;
    return Some((left, right));
  }

  /** A line without two integer columns makes the lists fail. */
  lemma ListsFailAt(input: seq<string>, i: nat)
    requires i < |input| && Columns(input[i]).None?
    ensures Lists(input).None?
  {
    ListsSpec(input);
  }

  /** From the smallest up. */
  predicate Ascending(s: seq<int>)
  {
    forall i, j :: 0 <= i < j < |s| ==> s[i] <= s[j]
  }

  /** `x` put in its place in an ascending sequence. */
  function Insert(x: int, s: seq<int>): (r: seq<int>)
    requires Ascending(s)
    ensures Ascending(r) && multiset(r) == multiset(s) + multiset{x}
  {
    if s == [] || x <= s[0] then
      PrependAscending(x, s);
      [x] + s
    else
      var rest := Insert(x, s[1..]);
      NotBelowFirst(s, x, rest);
      PrependAscending(s[0], rest);
      assert s == [s[0]] + s[1..];
      [s[0]] + rest
  }

  /** A value no larger than any element, put first, keeps a sequence
      ascending. */
  lemma PrependAscending(x: int, s: seq<int>)
    requires Ascending(s) && (s == [] || x <= s[0])
    ensures Ascending([x] + s)
  {
  }

  /** What is inserted after the first element of an ascending sequence is
      no smaller than that element. */
  lemma NotBelowFirst(s: seq<int>, x: int, rest: seq<int>)
    requires s != [] && Ascending(s) && x > s[0]
    requires multiset(rest) == multiset(s[1..]) + multiset{x}
    ensures forall k :: 0 <= k < |rest| ==> rest[k] >= s[0]
  {
    forall k | 0 <= k < |rest| ensures rest[k] >= s[0] {
      assert rest[k] in multiset(rest);
      if rest[k] != x {
        assert rest[k] in multiset(s[1..]);
        var j :| 0 <= j < |s[1..]| && s[1..][j] == rest[k];
        assert s[j + 1] == rest[k];
      }
    }
  }

  /** `sorted`: the same numbers from the smallest up. */
  function Sort(s: seq<int>): (r: seq<int>)
    ensures Ascending(r) && multiset(r) == multiset(s)
  {
    if s == [] then []
    else
      assert s == [s[0]] + s[1..];
      Insert(s[0], Sort(s[1..]))
  }

  /** Two ascending sequences with the same elements are equal: sorting
      does not depend on the order of what is sorted. */
  lemma {:induction false} AscendingUnique(a: seq<int>, b: seq<int>)
    requires Ascending(a) && Ascending(b) && multiset(a) == multiset(b)
    ensures a == b
    decreases |a|
  {
    assert |a| == |multiset(a)| == |b|;
    if a != [] {
      SameFirst(a, b);
      MultisetTail(a);
      MultisetTail(b);
      AscendingTail(a);
      AscendingTail(b);
      AscendingUnique(a[1..], b[1..]);
      assert a == [a[0]] + a[1..] && b == [b[0]] + b[1..];
    }
  }

  /** Two non-empty ascending sequences with the same elements start with
      the same, smallest, element. */
  lemma SameFirst(a: seq<int>, b: seq<int>)
    requires a != [] && b != []
    requires Ascending(a) && Ascending(b) && multiset(a) == multiset(b)
    ensures a[0] == b[0]
  {
    assert a[0] in multiset(b) && b[0] in multiset(a);
    var i :| 0 <= i < |b| && b[i] == a[0];
    var j :| 0 <= j < |a| && a[j] == b[0];
    assert b[0] <= b[i] && a[0] <= a[j];
  }

  lemma AscendingTail(s: seq<int>)
    requires s != [] && Ascending(s)
    ensures Ascending(s[1..])
  {
    forall i, j | 0 <= i < j < |s[1..]| ensures s[1..][i] <= s[1..][j] {
      assert s[1..][i] == s[i + 1] && s[1..][j] == s[j + 1];
    }
  }

  lemma MultisetTail(s: seq<int>)
    requires s != []
    ensures multiset(s[1..]) == multiset(s) - multiset{s[0]}
  {
    assert s == [s[0]] + s[1..];
  }

  /** Sorting a reordering gives the same sequence. */
  lemma SortReordered(a: seq<int>, b: seq<int>)
    requires multiset(a) == multiset(b)
    ensures Sort(a) == Sort(b)
  {
    AscendingUnique(Sort(a), Sort(b));
  }

  /** `get_distances_between_elements`: `abs(x - y)` for the pairs that
      `zip` makes, as many as the shorter list has entries. */
  function Distances(left: seq<int>, right: seq<int>): (d: seq<int>)
    ensures |d| == if |left| <= |right| then |left| else |right|
  {
    var n := if |left| <= |right| then |left| else |right|;
    seq(n, k requires 0 <= k < n => Arith.Abs(left[k] - right[k]))
  }

  /** The distance of two lists does not depend on which is on the left,
      and no distance is negative. */
  lemma DistancesSymmetric(left: seq<int>, right: seq<int>)
    ensures Distances(left, right) == Distances(right, left)
    ensures forall k :: 0 <= k < |Distances(left, right)| ==> Distances(left, right)[k] >= 0
  {
  }

  /** A list is at distance 0 from itself. */
  lemma {:induction false} DistancesToItself(s: seq<int>)
    ensures Arith.Sum(Distances(s, s)) == 0
  {
    var d := Distances(s, s);
    forall k | 0 <= k < |d| ensures d[k] == 0 {
      assert d[k] == Arith.Abs(s[k] - s[k]);
    }
    AllZeroSum(d);
  }

  lemma {:induction false} AllZeroSum(d: seq<int>)
    requires forall k :: 0 <= k < |d| ==> d[k] == 0
    ensures Arith.Sum(d) == 0
  {
    if d != [] {
      AllZeroSum(d[..|d| - 1]);
    }
  }

  /** `part_one`: the total distance of the sorted lists. */
  function PartOne(input: seq<string>): Option<int>
  {
    match Lists(input)
    case None => None
    case Some((left, right)) => Some(Arith.Sum(Distances(Sort(left), Sort(right))))
  }

  /** The total distance is never negative, and it only depends on which
      numbers each list holds, not on their order. */
  lemma PartOneOfReordered(input: seq<string>, left: seq<int>, right: seq<int>, left2: seq<int>, right2: seq<int>)
    requires Lists(input) == Some((left, right))
    requires multiset(left2) == multiset(left) && multiset(right2) == multiset(right)
    ensures PartOne(input) == Some(Arith.Sum(Distances(Sort(left2), Sort(right2))))
    ensures PartOne(input).value >= 0
  {
    SortReordered(left, left2);
    SortReordered(right, right2);
    DistancesSymmetric(Sort(left), Sort(right));
    Arith.SumNonNegative(Distances(Sort(left), Sort(right)));
  }

  lemma SumOfSix(a: int, b: int, c: int, d: int, e: int, f: int)
    ensures Arith.Sum([a, b, c, d, e, f]) == a + b + c + d + e + f
  {
    assert Arith.Sum([a]) == a by { assert [a][..0] == []; }
    assert Arith.Sum([a, b]) == a + b by { assert [a, b][..1] == [a]; }
    assert Arith.Sum([a, b, c]) == a + b + c by { assert [a, b, c][..2] == [a, b]; }
    assert Arith.Sum([a, b, c, d]) == a + b + c + d by { assert [a, b, c, d][..3] == [a, b, c]; }
    assert Arith.Sum([a, b, c, d, e]) == a + b + c + d + e by { assert [a, b, c, d, e][..4] == [a, b, c, d]; }
    assert [a, b, c, d, e, f][..5] == [a, b, c, d, e];
  }

  /** The lists of the puzzle's example are at total distance 11. */
  lemma TotalDistanceExample(left: seq<int>, right: seq<int>)
    requires left == [3, 4, 2, 1, 3, 3] && right == [4, 3, 5, 3, 9, 3]
    ensures Arith.Sum(Distances(Sort(left), Sort(right))) == 11
  {
    ExampleLeftElements(left);
    ExampleRightElements(right);
    ExampleAscending();
    SortedExample(left, [1, 2, 3, 3, 3, 4]);
    SortedExample(right, [3, 3, 3, 4, 5, 9]);
    SortedDistanceExample(Sort(left), Sort(right));
  }

  lemma ExampleLeftElements(left: seq<int>)
    requires left == [3, 4, 2, 1, 3, 3]
    ensures multiset([1, 2, 3, 3, 3, 4]) == multiset(left)
  {
  }

  lemma ExampleRightElements(right: seq<int>)
    requires right == [4, 3, 5, 3, 9, 3]
    ensures multiset([3, 3, 3, 4, 5, 9]) == multiset(right)
  {
  }

  lemma ExampleAscending()
    ensures Ascending([1, 2, 3, 3, 3, 4]) && Ascending([3, 3, 3, 4, 5, 9])
  {
  }

  lemma SortedDistanceExample(sortedLeft: seq<int>, sortedRight: seq<int>)
    requires sortedLeft == [1, 2, 3, 3, 3, 4] && sortedRight == [3, 3, 3, 4, 5, 9]
    ensures Arith.Sum(Distances(sortedLeft, sortedRight)) == 11
  {
    assert Distances(sortedLeft, sortedRight) == [2, 1, 0, 1, 2, 5];
    SumOfSix(2, 1, 0, 1, 2, 5);
  }

  /** An ascending reordering of a list is what sorting it gives. */
  lemma SortedExample(s: seq<int>, sorted: seq<int>)
    requires Ascending(sorted) && multiset(sorted) == multiset(s)
    ensures Sort(s) == sorted
  {
    AscendingUnique(Sort(s), sorted);
  }

  /** Lines with the same number in both columns are at total distance 0. */
  lemma PartOneOfEqualColumns(input: seq<string>, s: seq<int>)
    requires Lists(input) == Some((s, s))
    ensures PartOne(input) == Some(0)
  {
    DistancesToItself(Sort(s));
  }

  /** `get_number_of_occurrences`: every element mapped to how often it
      occurs. */
  method GetNumberOfOccurrences(input: seq<int>) returns (occurrences: map<int, nat>)
    ensures forall x :: x in occurrences <==> x in input
    ensures forall x :: x in occurrences ==> occurrences[x] == Arith.Count(input, x)
  {
    occurrences := map[];
    for i := 0 to |input|
      invariant forall x :: x in occurrences <==> x in input[..i]
      invariant forall x :: x in occurrences ==> occurrences[x] == Arith.Count(input[..i], x)
    {
      assert input[..i + 1][..i] == input[..i];
      assert input[..i + 1] == input[..i] + [input[i]];
      var element := input[i];
      if element !in occurrences {
        CountAbsent(input[..i], element);
        occurrences := occurrences[element := 1];
        continue;
      }
      occurrences := occurrences[element := occurrences[element] + 1];
    }
    assert input[..|input|] == input;
  }

  /** An element that does not occur is counted 0 times. */
  lemma {:induction false} CountAbsent(s: seq<int>, x: int)
    requires x !in s
    ensures Arith.Count(s, x) == 0
  {
    if s != [] {
      assert s[..|s| - 1] <= s;
      CountAbsent(s[..|s| - 1], x);
    }
  }

  /** `occurrences.get(x, 0)`. */
  function Get(occurrences: map<int, nat>, x: int): nat
  {
    if x in occurrences then occurrences[x] else 0
  }

  /** The sum of every left element times its value in `occurrences`. */
  function Similarity(occurrences: map<int, nat>, left: seq<int>): int
  {
    if left == [] then 0
    else
      var last := |left| - 1;
      Similarity(occurrences, left[..last]) + left[last] * Get(occurrences, left[last])
  }

  /** `get_similarity_score`: the loop that adds `x * occurrences.get(x, 0)`
      for every left element. */
  method GetSimilarityScore(occurrences: map<int, nat>, left: seq<int>) returns (score: int)
    ensures score == Similarity(occurrences, left)
  {
    score := 0;
    for i := 0 to |left|
      invariant score == Similarity(occurrences, left[..i])
    {
      assert left[..i + 1][..i] == left[..i];
      score := score + left[i] * Get(occurrences, left[i]);
    }
    assert left[..|left|] == left;
  }

  /** The similarity score as the puzzle states it: every left number
      times the number of times it appears in the right list. */
  function SimilarityOfLists(left: seq<int>, right: seq<int>): int
  {
    if left == [] then 0
    else
      var last := |left| - 1;
      SimilarityOfLists(left[..last], right) + left[last] * Arith.Count(right, left[last])
  }

  /** With the occurrences of the right list, the score is that of the
      puzzle: an absent value counts 0. */
  lemma {:induction false} SimilarityOfOccurrences(occurrences: map<int, nat>, left: seq<int>, right: seq<int>)
    requires forall x :: x in occurrences <==> x in right
    requires forall x :: x in occurrences ==> occurrences[x] == Arith.Count(right, x)
    ensures Similarity(occurrences, left) == SimilarityOfLists(left, right)
  {
    if left != [] {
      var last := |left| - 1;
      SimilarityOfOccurrences(occurrences, left[..last], right);
      if left[last] !in right {
        CountAbsent(right, left[last]);
      }
    }
  }

  /** The similarity score of the unit test: 31. */
  lemma SimilarityExample()
    ensures Similarity(map[3 := 3, 4 := 1, 5 := 1, 9 := 1], [3, 4, 2, 1, 3, 3]) == 31
  {
    var occurrences := map[3 := 3, 4 := 1, 5 := 1, 9 := 1];
    assert Get(occurrences, 3) == 3 && Get(occurrences, 4) == 1;
    assert Get(occurrences, 2) == 0 && Get(occurrences, 1) == 0;
    SimilarityOfSix(occurrences, 3, 4, 2, 1, 3, 3);
  }

  lemma SimilarityOfSix(occurrences: map<int, nat>, a: int, b: int, c: int, d: int, e: int, f: int)
    ensures Similarity(occurrences, [a, b, c, d, e, f]) ==
      a * Get(occurrences, a) + b * Get(occurrences, b) + c * Get(occurrences, c) +
      d * Get(occurrences, d) + e * Get(occurrences, e) + f * Get(occurrences, f)
  {
    var o := occurrences;
    assert Similarity(o, [a]) == a * Get(o, a) by { assert [a][..0] == []; }
    assert Similarity(o, [a, b]) == a * Get(o, a) + b * Get(o, b) by { assert [a, b][..1] == [a]; }
    assert Similarity(o, [a, b, c]) == a * Get(o, a) + b * Get(o, b) + c * Get(o, c) by {
      assert [a, b, c][..2] == [a, b];
    }
    assert Similarity(o, [a, b, c, d]) == a * Get(o, a) + b * Get(o, b) + c * Get(o, c) + d * Get(o, d) by {
      assert [a, b, c, d][..3] == [a, b, c];
    }
    assert Similarity(o, [a, b, c, d, e]) ==
      a * Get(o, a) + b * Get(o, b) + c * Get(o, c) + d * Get(o, d) + e * Get(o, e) by {
      assert [a, b, c, d, e][..4] == [a, b, c, d];
    }
    assert [a, b, c, d, e, f][..5] == [a, b, c, d, e];
  }

  /** `part_two`: the similarity score of the two lists. */
  method PartTwo(input: seq<string>) returns (r: Option<int>)
    ensures r.None? <==> Lists(input).None?
    ensures r.Some? ==> r == Some(SimilarityOfLists(Lists(input).value.0, Lists(input).value.1))
  {
    var lists := GetListsFromInput(input);
    if lists.None? {
      return None;
    }
    var (left, right) := lists.value;
    var occurrences := GetNumberOfOccurrences(right);
    var score := GetSimilarityScore(occurrences, left);
    SimilarityOfOccurrences(occurrences, left, right);
    return Some(score);
  }
}
