/** The reactor reports of 2024 day 2: a report is a line of levels; it is
    safe when the levels only go up or only go down, by 1 to 3 at each
    step, the direction being the one its first two levels take. */
module RedNosedReports {
  import opened Text
  import Arith

  const MinAllowedDistance := 1
  const MaxAllowedDistance := 3

  /** `Report`: the levels and whether the first two go up. */
  datatype Report = Report(levels: seq<int>, isIncreasing: bool)
  {
    /** `is_decreasing`: exactly when the report does not go up. */
    predicate IsDecreasing() { !isIncreasing }
  }

  /** `Report(data)`: the whitespace-separated levels read with `int`; a
      level that is no integer raises, and so does a report of fewer than
      two levels, since the direction reads `levels[1]`. */
  function NewReport(data: string): (r: Option<Report>)
    ensures r.Some? ==> |r.value.levels| >= 2 && r.value.isIncreasing == (r.value.levels[0] < r.value.levels[1])
    ensures r.Some? ==> |r.value.levels| == |Words(data)|
    ensures r.Some? ==> forall k :: 0 <= k < |Words(data)| ==> PyInt(Words(data)[k]) == Some(r.value.levels[k])
  {
    match ParseInts(Words(data))
    case None => None
    case Some(levels) =>
      if |levels| < 2 then None
      else Some(Report(levels, levels[0] < levels[1]))
  }

  /** Every word read with `int`; one failure fails them all. */
  function ParseInts(words: seq<string>): (r: Option<seq<int>>)
    ensures r.Some? ==> |r.value| == |words|
    ensures r.Some? ==> forall k :: 0 <= k < |words| ==> PyInt(words[k]) == Some(r.value[k])
  {
    if words == [] then Some([])
    else
      match (PyInt(words[0]), ParseInts(words[1..]))
      case (Some(n), Some(ns)) => Some([n] + ns)
      case _ => None
  }

  /** `_level_distance_is_in_range`. */
  predicate InRange(distance: int)
  {
    MinAllowedDistance <= distance <= MaxAllowedDistance
  }

  /** One step from `previous` to `level` keeps the report safe: its size
      in range and its direction that of the report. */
  predicate SafeStep(report: Report, previous: int, level: int)
  {
    InRange(Arith.Abs(previous - level)) &&
    (if report.isIncreasing then level > previous else true) &&
    (if report.IsDecreasing() then level < previous else true)
  }

  /** Every step among the first `n` levels is safe. */
  predicate SafeUpTo(report: Report, n: nat)
    requires n <= |report.levels|
  {
    forall i :: 1 <= i < n ==> SafeStep(report, report.levels[i - 1], report.levels[i])
  }

  predicate Safe(report: Report)
  {
    SafeUpTo(report, |report.levels|)
  }

  /** `is_safe`: the loop over the levels after the first, which keeps
      `is_safe` while each step's distance is in range and its direction
      the report's. */
  method IsSafe(report: Report) returns (isSafe: bool)
    requires report.levels != []
    ensures isSafe == Safe(report)
  {
    isSafe := true;
    var previousLevel := report.levels[0];
    for i := 1 to |report.levels|
      invariant previousLevel == report.levels[i - 1]
      invariant isSafe == SafeUpTo(report, i)
    {
      var level := report.levels[i];
      isSafe := isSafe && InRange(Arith.Abs(previousLevel - level));
      isSafe := isSafe && (if report.isIncreasing then level > previousLevel else true);
      isSafe := isSafe && (if report.IsDecreasing() then level < previousLevel else true);
      previousLevel := level;
    }
  }

  /** Strictly up by 1 to 3 at each step. */
  predicate AllIncreasing(levels: seq<int>)
  {
    forall i :: 1 <= i < |levels| ==> 1 <= levels[i] - levels[i - 1] <= 3
  }

  /** Strictly down by 1 to 3 at each step. */
  predicate AllDecreasing(levels: seq<int>)
  {
    forall i :: 1 <= i < |levels| ==> 1 <= levels[i - 1] - levels[i] <= 3
  }

  /** A report read from a line is safe exactly when its levels go all up
      or all down by 1 to 3 at each step. */
  lemma SafeIff(report: Report)
    requires |report.levels| >= 2 && report.isIncreasing == (report.levels[0] < report.levels[1])
    ensures Safe(report) <==> AllIncreasing(report.levels) || AllDecreasing(report.levels)
  {
    var levels := report.levels;
    if report.isIncreasing {
      forall i | 1 <= i < |levels|
        ensures SafeStep(report, levels[i - 1], levels[i]) <==> 1 <= levels[i] - levels[i - 1] <= 3
      {
        StepUp(report, levels[i - 1], levels[i]);
      }
      assert !(1 <= levels[0] - levels[1]);
    } else {
      forall i | 1 <= i < |levels|
        ensures SafeStep(report, levels[i - 1], levels[i]) <==> 1 <= levels[i - 1] - levels[i] <= 3
      {
        StepDown(report, levels[i - 1], levels[i]);
      }
      assert !(1 <= levels[1] - levels[0]);
    }
  }

  /** In a report that goes up, a step is safe when it goes up by 1 to 3. */
  lemma StepUp(report: Report, previous: int, level: int)
    requires report.isIncreasing
    ensures SafeStep(report, previous, level) <==> 1 <= level - previous <= 3
  {
  }

  /** In a report that goes down, a step is safe when it goes down by 1 to
      3. */
  lemma StepDown(report: Report, previous: int, level: int)
    requires !report.isIncreasing
    ensures SafeStep(report, previous, level) <==> 1 <= previous - level <= 3
  {
  }

  /** The reports read from the lines, `None` when one cannot be read. */
  function ReportList(input: seq<string>): Option<seq<Report>>
  {
    if input == [] then Some([])
    else
      var last := |input| - 1;
      match (ReportList(input[..last]), NewReport(input[last]))
      case (Some(reports), Some(report)) => Some(reports + [report])
      case _ => None
  }

  /** `get_report_list`: one report per line, in order. */
  lemma {:induction false} ReportListSpec(input: seq<string>)
    ensures ReportList(input).Some? ==> ReadAs(input, ReportList(input).value)
  {
    if input != [] && ReportList(input).Some? {
      var last := |input| - 1;
      ReportListSpec(input[..last]);
      ReadAsAppend(input, ReportList(input[..last]).value, NewReport(input[last]).value);
    }
  }

  /** One report per line, each the one its line reads as. */
  predicate ReadAs(input: seq<string>, reports: seq<Report>)
  {
    |reports| == |input| && forall k :: 0 <= k < |input| ==> NewReport(input[k]) == Some(reports[k])
  }

  /** The reports of all lines but the last, then the report of the last. */
  lemma ReadAsAppend(input: seq<string>, reports: seq<Report>, report: Report)
    requires input != [] && ReadAs(input[..|input| - 1], reports) && NewReport(input[|input| - 1]) == Some(report)
    ensures ReadAs(input, reports + [report])
  {
    var last := |input| - 1;
    assert forall k :: 0 <= k < last ==> input[..last][k] == input[k];
  }

  /** How many of the reports are safe. */
  function SafeCount(reports: seq<Report>): (n: nat)
    ensures n <= |reports|
  {
    if reports == [] then 0
    else
      var last := |reports| - 1;
      SafeCount(reports[..last]) + if Safe(reports[last]) then 1 else 0
  }

  /** Only safe reports: every one counted; no safe one: none counted. */
  lemma {:induction false} SafeCountExtremes(reports: seq<Report>)
    ensures (forall k :: 0 <= k < |reports| ==> Safe(reports[k])) ==> SafeCount(reports) == |reports|
    ensures (forall k :: 0 <= k < |reports| ==> !Safe(reports[k])) ==> SafeCount(reports) == 0
  {
    if reports != [] {
      var last := |reports| - 1;
      SafeCountExtremes(reports[..last]);
      assert forall k :: 0 <= k < last ==> reports[..last][k] == reports[k];
    }
  }

  /** `get_safe_reports_count`: one more for every safe report. */
  method GetSafeReportsCount(reports: seq<Report>) returns (count: nat)
    requires forall k :: 0 <= k < |reports| ==> reports[k].levels != []
    ensures count == SafeCount(reports)
  {
    count := 0;
    for i := 0 to |reports|
      invariant count == SafeCount(reports[..i])
    {
      assert reports[..i + 1][..i] == reports[..i];
      var safe := IsSafe(reports[i]);
      count := count + if safe then 1 else 0;
    }
    assert reports[..|reports|] == reports;
  }

  /** The report `Report(data)` builds from levels read from a line. */
  function ReportOf(levels: seq<int>): (r: Report)
    requires |levels| >= 2
    ensures r.levels == levels && (r.isIncreasing <==> levels[0] < levels[1])
  {
    Report(levels, levels[0] < levels[1])
  }

  /** A report with one unsafe step is not safe. */
  lemma UnsafeAt(report: Report, i: nat)
    requires 1 <= i < |report.levels| && !SafeStep(report, report.levels[i - 1], report.levels[i])
    ensures !Safe(report)
  {
  }

  /** Counting one more report adds one exactly when it is safe. */
  lemma SafeCountAppend(reports: seq<Report>, report: Report)
    ensures SafeCount(reports + [report]) == SafeCount(reports) + if Safe(report) then 1 else 0
  {
    assert (reports + [report])[..|reports|] == reports;
  }

  /** The safe and unsafe reports of the unit tests. */
  lemma SafeReportsExamples()
    ensures Safe(ReportOf([1, 2, 4, 7, 9, 11, 12])) && Safe(ReportOf([12, 11, 9, 7, 4, 2, 1]))
    ensures !Safe(ReportOf([1, 2, 4, 7, 11, 12])) && !Safe(ReportOf([12, 11, 9, 6, 2, 1]))
  {
    assert Safe(ReportOf([1, 2, 4, 7, 9, 11, 12])) by {
      SafeIff(ReportOf([1, 2, 4, 7, 9, 11, 12]));
    }
    assert Safe(ReportOf([12, 11, 9, 7, 4, 2, 1])) by {
      SafeIff(ReportOf([12, 11, 9, 7, 4, 2, 1]));
    }
    assert !Safe(ReportOf([1, 2, 4, 7, 11, 12])) by {
      UnsafeAt(ReportOf([1, 2, 4, 7, 11, 12]), 4);
    }
    UnsafeAt(ReportOf([12, 11, 9, 6, 2, 1]), 4);
  }

  /** Which of the six reports of the puzzle's example are safe. */
  lemma ExampleSafety()
    ensures Safe(ReportOf([7, 6, 4, 2, 1])) && !Safe(ReportOf([1, 2, 7, 8, 9]))
    ensures !Safe(ReportOf([9, 7, 6, 2, 1])) && !Safe(ReportOf([1, 3, 2, 4, 5]))
    ensures !Safe(ReportOf([8, 6, 4, 4, 1])) && Safe(ReportOf([1, 3, 6, 7, 9]))
  {
    SafeIff(ReportOf([7, 6, 4, 2, 1]));
    assert AllDecreasing([7, 6, 4, 2, 1]);
    UnsafeAt(ReportOf([1, 2, 7, 8, 9]), 2);
    UnsafeAt(ReportOf([9, 7, 6, 2, 1]), 3);
    UnsafeAt(ReportOf([1, 3, 2, 4, 5]), 2);
    UnsafeAt(ReportOf([8, 6, 4, 4, 1]), 3);
    SafeIff(ReportOf([1, 3, 6, 7, 9]));
    assert AllIncreasing([1, 3, 6, 7, 9]);
  }

  /** The six reports of the puzzle's example: two of them are safe. */
  lemma SafeCountExample()
    ensures SafeCount([ReportOf([7, 6, 4, 2, 1]), ReportOf([1, 2, 7, 8, 9]), ReportOf([9, 7, 6, 2, 1]),
                       ReportOf([1, 3, 2, 4, 5]), ReportOf([8, 6, 4, 4, 1]), ReportOf([1, 3, 6, 7, 9])]) == 2
  {
    ExampleSafety();
    SafeCountOfSix(ReportOf([7, 6, 4, 2, 1]), ReportOf([1, 2, 7, 8, 9]), ReportOf([9, 7, 6, 2, 1]),
                   ReportOf([1, 3, 2, 4, 5]), ReportOf([8, 6, 4, 4, 1]), ReportOf([1, 3, 6, 7, 9]));
  }

  lemma SafeCountOfSix(r0: Report, r1: Report, r2: Report, r3: Report, r4: Report, r5: Report)
    requires Safe(r0) && !Safe(r1) && !Safe(r2) && !Safe(r3) && !Safe(r4) && Safe(r5)
    ensures SafeCount([r0, r1, r2, r3, r4, r5]) == 2
  {
    var weight := (r: Report) => if Safe(r) then 1 else 0;
    forall reports: seq<Report>, report: Report
      ensures SafeCount(reports + [report]) == SafeCount(reports) + weight(report)
    {
      SafeCountAppend(reports, report);
    }
    CountOfSix(SafeCount, weight, r0, r1, r2, r3, r4, r5);
  }

  /** A count that grows by the weight of each appended element, over six
      elements. */
  lemma CountOfSix<T>(count: seq<T> -> nat, weight: T -> nat, a: T, b: T, c: T, d: T, e: T, f: T)
    requires count([]) == 0
    requires forall s: seq<T>, x: T :: count(s + [x]) == count(s) + weight(x)
    ensures count([a, b, c, d, e, f]) == weight(a) + weight(b) + weight(c) + weight(d) + weight(e) + weight(f)
  {
    assert [] + [a] == [a];
    assert [a] + [b] == [a, b];
    assert [a, b] + [c] == [a, b, c];
    assert [a, b, c] + [d] == [a, b, c, d];
    assert [a, b, c, d] + [e] == [a, b, c, d, e];
    assert [a, b, c, d, e] + [f] == [a, b, c, d, e, f];
  }

  /** `part_one`: how many of the reports read from the lines are safe. */
  method PartOne(input: seq<string>) returns (r: Option<nat>)
    ensures r.None? <==> ReportList(input).None?
    ensures r.Some? ==> r.value == SafeCount(ReportList(input).value) && r.value <= |input|
  {
    var reports := ReportList(input);
    if reports.None? {
      return None;
    }
    ReportListSpec(input);
    var count := GetSafeReportsCount(reports.value);
    return Some(count);
  }
}
