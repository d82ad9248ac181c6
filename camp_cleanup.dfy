/** The section assignments of 2022 day 4: each line names two ranges of
    sections, `a-b,c-d`, and part one counts the lines where one range lies
    entirely inside the other. */
module CampCleanup {
  import opened Text

  /** The positions of the smallest value and of the smallest of the others,
      the earlier position winning a tie: the first two entries once the values
      are sorted in increasing order by a stable sort. */
  function LowTwo(s: seq<nat>): (r: (nat, nat))
    requires |s| >= 2
    ensures r.0 < |s| && r.1 < |s| && r.0 != r.1
    ensures forall k :: 0 <= k < |s| ==> s[r.0] < s[k] || (s[r.0] == s[k] && r.0 <= k)
    ensures forall k :: 0 <= k < |s| && k != r.0 ==> s[r.1] < s[k] || (s[r.1] == s[k] && r.1 <= k)
  {
    if |s| == 2 then (if s[1] < s[0] then (1, 0) else (0, 1))
    else
      var last := |s| - 1;
      var (first, second) := LowTwo(s[..last]);
      if s[last] < s[first] then (last, first)
      else if s[last] < s[second] then (first, last)
      else (first, second)
  }

  /** `(lo..hi + 1).collect()`: the sections from `lo` to `hi`, both included. */
  function Range(lo: nat, hi: nat): (r: seq<nat>)
    ensures |r| == if lo <= hi then hi - lo + 1 else 0
    ensures forall k :: 0 <= k < |r| ==> r[k] == lo + k
    decreases hi + 1 - lo
  {
    if lo > hi then [] else [lo] + Range(lo + 1, hi)
  }

  /** A section lies in a range exactly when it lies between its ends. */
  lemma InRange(x: nat, lo: nat, hi: nat)
    ensures x in Range(lo, hi) <==> lo <= x <= hi
  {
    var r := Range(lo, hi);
    if lo <= x <= hi {
      assert r[x - lo] == x;
    }
  }

  /** `get_elf_sector`: the ends split at `-`, parsed and sorted, and the range
      between the two smallest. Fewer than two ends panic on the index, and an
      upper end of `u32::MAX` overflows `s[1] + 1`; both are `None`. */
  function ElfSector(sec: string): (r: Option<seq<nat>>)
    ensures r.Some? ==> r.value != []
  {
    match ParseU32s(Split(sec, '-'))
    case None => None
    case Some(ends) =>
      if |ends| < 2 then None
      else
        var (low, high) := LowTwo(ends);
        if ends[high] == U32_MAX then None else Some(Range(ends[low], ends[high]))
  }

  /** Two parsed ends: the range between them, whichever comes first. */
  lemma ElfSectorOfEnds(sec: string, a: nat, b: nat)
    requires ParseU32s(Split(sec, '-')) == Some([a, b])
    requires a < U32_MAX && b < U32_MAX
    ensures ElfSector(sec) == Some(if a <= b then Range(a, b) else Range(b, a))
  {
  }

  lemma ParseU32sPair(x: string, y: string, a: nat, b: nat)
    requires ParseU32(x) == Some(a) && ParseU32(y) == Some(b)
    ensures ParseU32s([x, y]) == Some([a, b])
  {
    assert [x, y][0] == x && [x, y][1..] == [y];
    assert [y][0] == y && [y][1..] == [];
    assert ParseU32s([]) == Some([]);
    assert ParseU32(y) == Some(b);
    assert ParseU32s([y]) == Some([b] + []);
    assert [b] + [] == [b];
    assert ParseU32s([x, y]) == Some([a] + [b]);
    assert [a] + [b] == [a, b];
  }

  /** Two numbers joined with `-`: the range between them, in either order. */
  lemma ElfSectorOfPair(a: nat, b: nat)
    requires a < U32_MAX && b < U32_MAX
    ensures ElfSector(ShowNat(a) + "-" + ShowNat(b)) ==
      Some(if a <= b then Range(a, b) else Range(b, a))
  {
    var left, right := ShowNat(a), ShowNat(b);
    ShowNatHasNoDash(a);
    ShowNatHasNoDash(b);
    assert Join([left, right], '-') == left + "-" + right;
    SplitJoin([left, right], '-');
    ParseShowNat(a);
    ParseShowNat(b);
    ParseU32sPair(left, right, a, b);
    ElfSectorOfEnds(left + "-" + right, a, b);
  }

  lemma ShowNatHasNoDash(n: nat)
    ensures '-' !in ShowNat(n)
  {
    var s := ShowNat(n);
    assert forall k :: 0 <= k < |s| ==> IsDigit(s[k]);
  }

  /** The order of the two ends does not matter. */
  lemma ElfSectorEndsCommute(a: nat, b: nat)
    requires a < U32_MAX && b < U32_MAX
    ensures ElfSector(ShowNat(a) + "-" + ShowNat(b)) == ElfSector(ShowNat(b) + "-" + ShowNat(a))
  {
    ElfSectorOfPair(a, b);
    ElfSectorOfPair(b, a);
  }

  /** The source's example: "2-4" gives the sections 2, 3 and 4. */
  lemma ElfSectorExample()
    ensures ElfSector("2-4") == Some([2, 3, 4])
  {
    assert ShowNat(2) == "2" && ShowNat(4) == "4";
    assert ShowNat(2) + "-" + ShowNat(4) == "2-4";
    ElfSectorOfPair(2, 4);
    assert Range(2, 4) == [2, 3, 4];
  }

  /** `a.iter().all(|sec| b.contains(sec))`. */
  predicate Contained(a: seq<nat>, b: seq<nat>)
  {
    forall k :: 0 <= k < |a| ==> a[k] in b
  }

  /** One non-empty range lies in another exactly when its ends lie between the
      other's ends. */
  lemma ContainedIff(lo1: nat, hi1: nat, lo2: nat, hi2: nat)
    requires lo1 <= hi1
    ensures Contained(Range(lo1, hi1), Range(lo2, hi2)) <==> lo2 <= lo1 && hi1 <= hi2
  {
    var a := Range(lo1, hi1);
    InRange(lo1, lo2, hi2);
    InRange(hi1, lo2, hi2);
    if lo2 <= lo1 && hi1 <= hi2 {
      forall k | 0 <= k < |a| ensures a[k] in Range(lo2, hi2) {
        InRange(a[k], lo2, hi2);
      }
    } else {
      assert a[0] == lo1 && a[|a| - 1] == hi1;
    }
  }

  /** The lengths of the ranges, the key of `sort_by_key(|a| a.len())`. */
  function Lengths(sectors: seq<seq<nat>>): (r: seq<nat>)
    ensures |r| == |sectors| && forall k :: 0 <= k < |r| ==> r[k] == |sectors[k]|
  {
    seq(|sectors|, k requires 0 <= k < |sectors| => |sectors[k]|)
  }

  /** Every comma-separated assignment of a line through `get_elf_sector`. */
  function ElfSectors(parts: seq<string>): (r: Option<seq<seq<nat>>>)
    ensures r.Some? ==> |r.value| == |parts|
    ensures r.Some? ==> forall k :: 0 <= k < |parts| ==> ElfSector(parts[k]) == Some(r.value[k])
  {
    if parts == [] then Some([])
    else
      match ElfSector(parts[0])
      case None => None
      case Some(sector) =>
        match ElfSectors(parts[1..])
        case None => None
        case Some(rest) => Some([sector] + rest)
  }

  /** Whether a line counts: after sorting by length, the first range lies in
      the second. A line with a single range panics when its first section is
      looked up in the missing second one. */
  function FullyContains(line: string): Option<bool>
  {
    match ElfSectors(Split(line, ','))
    case None => None
    case Some(sectors) =>
      if |sectors| < 2 then None
      else
        var (first, second) := LowTwo(Lengths(sectors));
        Some(Contained(sectors[first], sectors[second]))
  }

  /** For a line of two ranges, the shorter one is checked against the longer
      one, the first one when they are as long. */
  lemma FullyContainsPair(line: string, a: seq<nat>, b: seq<nat>)
    requires ElfSectors(Split(line, ',')) == Some([a, b])
    ensures FullyContains(line) == Some(if |b| < |a| then Contained(b, a) else Contained(a, b))
  {
    assert Lengths([a, b]) == [|a|, |b|];
  }

  /** A line of two ranges counts exactly when either range lies in the other:
      checking only the shorter one misses nothing. */
  lemma FullyContainsRanges(line: string, lo1: nat, hi1: nat, lo2: nat, hi2: nat)
    requires lo1 <= hi1 && lo2 <= hi2
    requires ElfSectors(Split(line, ',')) == Some([Range(lo1, hi1), Range(lo2, hi2)])
    ensures FullyContains(line) == Some((lo2 <= lo1 && hi1 <= hi2) || (lo1 <= lo2 && hi2 <= hi1))
  {
    FullyContainsPair(line, Range(lo1, hi1), Range(lo2, hi2));
    ContainedIff(lo1, hi1, lo2, hi2);
    ContainedIff(lo2, hi2, lo1, hi1);
  }

  /** Whether each line counts, in order. */
  function Verdicts(lines: seq<string>): (r: seq<Option<bool>>)
    ensures |r| == |lines| && forall k :: 0 <= k < |lines| ==> r[k] == FullyContains(lines[k])
  {
    seq(|lines|, k requires 0 <= k < |lines| => FullyContains(lines[k]))
  }

  /** The number of lines that count, or `None` where a line panics. */
  function CountTrue(verdicts: seq<Option<bool>>): (r: Option<nat>)
    ensures r.Some? ==> r.value <= |verdicts|
    decreases |verdicts|
  {
    if verdicts == [] then Some(0)
    else
      var last := |verdicts| - 1;
      match CountTrue(verdicts[..last])
      case None => None
      case Some(c) =>
        match verdicts[last]
        case None => None
        case Some(counts) => Some(if counts then c + 1 else c)
  }

  /** The number of lines of the input that count. */
  function ContainmentCount(lines: seq<string>): (r: Option<nat>)
    ensures r.Some? ==> r.value <= |lines|
  {
    CountTrue(Verdicts(lines))
  }

  /** The counting loop of `main`: `c` goes up by one for every line whose
      shorter range lies in the other. */
  method CountFullContainments(lines: seq<string>) returns (c: Option<nat>)
    ensures c == ContainmentCount(lines)
  {
    ghost var verdicts := Verdicts(lines);
    var count := 0;
    for i := 0 to |lines|
      invariant CountTrue(verdicts[..i]) == Some(count)
    {
      var contains := FullyContains(lines[i]);
      if contains.None? {
        CountTrueFails(verdicts, i);
        return None;
      }
      CountTrueStep(verdicts, i, count);
      if contains.value {
        count := count + 1;
      }
    }
    assert verdicts[..|lines|] == verdicts;
    return Some(count);
  }

  lemma CountTrueStep(verdicts: seq<Option<bool>>, i: nat, count: nat)
    requires i < |verdicts| && verdicts[i].Some? && CountTrue(verdicts[..i]) == Some(count)
    ensures CountTrue(verdicts[..i + 1]) == Some(if verdicts[i].value then count + 1 else count)
  {
    assert verdicts[..i + 1][..i] == verdicts[..i];
  }

  /** A line that panics stops the whole count. */
  lemma {:induction false} CountTrueFails(verdicts: seq<Option<bool>>, i: nat)
    requires i < |verdicts| && verdicts[i].None?
    ensures CountTrue(verdicts).None?
    decreases |verdicts|
  {
    var last := |verdicts| - 1;
    if i < last {
      assert verdicts[..last][i] == verdicts[i];
      CountTrueFails(verdicts[..last], i);
    }
  }

  /** Part one of `main`: the input trimmed, split into lines and counted. */
  method PartOne(input: string) returns (c: Option<nat>)
    ensures c == ContainmentCount(Split(Trim(input), '\n'))
  {
    c := CountFullContainments(Split(Trim(input), '\n'));
  }
}
