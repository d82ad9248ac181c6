/** The sonar sweep of 2021 day 1 (Rust): how often a depth measurement is
    larger than the one before it, over the measurements themselves and
    over the sums of windows of three consecutive measurements. */
module SonarSweeper {
  import opened Text

  /** `measurement_has_increased`. */
  predicate HasIncreased(lastMeasurement: nat, currentMeasurement: nat)
  {
    currentMeasurement > lastMeasurement
  }

  /** The number of indices `i` from `gap` on whose measurement is larger
      than the one `gap` places before it. With `gap` 1 this is the
      number of increases; with 3 it compares measurements three apart. */
  function Gaps(m: seq<nat>, gap: nat): (r: nat)
    requires gap >= 1
    ensures r <= if |m| >= gap then |m| - gap else 0
  {
    if |m| <= gap then 0
    else
      var last := |m| - 1;
      Gaps(m[..last], gap) + (if HasIncreased(m[last - gap], m[last]) then 1 else 0)
  }

  /** The measurements go up at every step. */
  predicate StrictlyIncreasing(m: seq<nat>)
  {
    forall i :: 1 <= i < |m| ==> m[i - 1] < m[i]
  }

  /** Every step is an increase exactly when the measurements go up at
      every step. */
  lemma {:induction false} AllIncreases(m: seq<nat>)
    requires m != []
    ensures Gaps(m, 1) == |m| - 1 <==> StrictlyIncreasing(m)
  {
    if |m| > 1 {
      var last := |m| - 1;
      AllIncreases(m[..last]);
      assert forall i :: 0 <= i < last ==> m[..last][i] == m[i];
      if StrictlyIncreasing(m) {
        assert StrictlyIncreasing(m[..last]);
      }
    }
  }

  /** `count_increases`: the loop over the indices that counts, from the
      second measurement on, those larger than the one before. */
  method CountIncreases(measurements: seq<nat>) returns (count: nat)
    ensures count == Gaps(measurements, 1)
  {
    count := 0;
    for i := 0 to |measurements|
      invariant count == Gaps(measurements[..i], 1)
    {
      assert measurements[..i + 1][..i] == measurements[..i];
      if i != 0 {
        if HasIncreased(measurements[i - 1], measurements[i]) {
          count := count + 1;
        }
      }
    }
    assert measurements[..|measurements|] == measurements;
  }

  /** The test count: 1, 2, 2, 3, 3, 4 goes up three times. */
  lemma CountIncreasesExample()
    ensures Gaps([1, 2, 2, 3, 3, 4], 1) == 3
  {
    var m: seq<nat> := [1, 2, 2, 3, 3, 4];
    assert [1, 2][..1] == [1];
    assert Gaps([1, 2], 1) == 1;
    assert [1, 2, 2][..2] == [1, 2];
    assert Gaps([1, 2, 2], 1) == 1;
    assert m[..3] == [1, 2, 2] && m[..4][..3] == m[..3];
    assert Gaps(m[..4], 1) == 2;
    assert m[..5][..4] == m[..4];
    assert Gaps(m[..5], 1) == 2;
  }

  /** `measurements[i..i + 3].iter().sum()`. */
  function Window(m: seq<nat>, i: nat): nat
    requires i + 2 < |m|
  {
    m[i] + m[i + 1] + m[i + 2]
  }

  /** The sums of every three consecutive measurements, in order. */
  function WindowSums(m: seq<nat>): (r: seq<nat>)
    ensures |r| == if |m| >= 2 then |m| - 2 else 0
    ensures forall i :: 0 <= i < |r| ==> r[i] == Window(m, i)
  {
    if |m| < 3 then []
    else seq(|m| - 2, i requires 0 <= i < |m| - 2 => Window(m, i))
  }

  /** `group_measurements_by_windows`: one sum for each of the first
      `len - 2` indices; `len() - 2` underflows, and panics, below two
      measurements. */
  method GroupMeasurementsByWindows(measurements: seq<nat>) returns (windows: Option<seq<nat>>)
    ensures windows.None? <==> |measurements| < 2
    ensures windows.Some? ==> windows.value == WindowSums(measurements)
  {
    if |measurements| < 2 {
      return None;
    }
    var sums: seq<nat> := [];
    for i := 0 to |measurements| - 2
      invariant |sums| == i
      invariant forall k :: 0 <= k < i ==> sums[k] == Window(measurements, k)
    {
      sums := sums + [measurements[i] + measurements[i + 1] + measurements[i + 2]];
      assert sums[i] == Window(measurements, i);
    }
    SameWindows(measurements, sums);
    return Some(sums);
  }

  /** Sums with the length and the values of the windows are the window
      sums. */
  lemma SameWindows(m: seq<nat>, sums: seq<nat>)
    requires |m| >= 2 && |sums| == |m| - 2
    requires forall k :: 0 <= k < |sums| ==> sums[k] == Window(m, k)
    ensures sums == WindowSums(m)
  {
    var w := WindowSums(m);
    assert forall k :: 0 <= k < |sums| ==> sums[k] == w[k];
  }

  /** The test windows: 1 to 6 give 6, 9, 12 and 15. */
  lemma WindowSumsExample()
    ensures WindowSums([1, 2, 3, 4, 5, 6]) == [6, 9, 12, 15]
  {
    var r := WindowSums([1, 2, 3, 4, 5, 6]);
    assert |r| == 4 && r[0] == 6 && r[1] == 9 && r[2] == 12 && r[3] == 15;
  }

  /** Two neighbouring windows share two measurements, so the later sum
      is larger exactly when the measurement it adds is larger than the
      one it drops: counting window increases is comparing measurements
      three apart. */
  lemma {:induction false} WindowIncreases(m: seq<nat>)
    ensures Gaps(WindowSums(m), 1) == Gaps(m, 3)
  {
    if |m| > 3 {
      var last := |m| - 1;
      WindowIncreases(m[..last]);
      var w, before := WindowSums(m), WindowSums(m[..last]);
      assert forall i :: 0 <= i < |before| ==> before[i] == w[i];
      assert w[..|w| - 1] == before;
      assert w[|w| - 2] == Window(m, last - 3) && w[|w| - 1] == Window(m, last - 2);
    }
  }
}
