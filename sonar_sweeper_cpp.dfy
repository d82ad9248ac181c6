/** The sonar sweep of 2021 day 1 (C++): the same counts as the Rust
    version, but each loop compares its first value with a previous value
    of 0 and takes one off the count at the end, on a 32-bit unsigned
    counter. */
module SonarSweeperCpp {
  import opened SonarSweeper

  /** 2^32, the modulus of `uint32_t` arithmetic. */
  const U32_MODULUS: nat := 0x1_0000_0000

  /** `count--` on a `uint32_t`: 0 wraps round to the largest value. */
  function Decrement32(count: nat): (r: nat)
    ensures count == 0 ==> r == U32_MODULUS - 1
    ensures count > 0 ==> r + 1 == count
  {
    if count == 0 then U32_MODULUS - 1 else count - 1
  }

  /** Counting from a previous value of 0 counts the first value too when
      it is positive. */
  lemma {:induction false} CountFromZero(m: seq<nat>)
    requires m != []
    ensures Gaps([0] + m, 1) == Gaps(m, 1) + (if m[0] > 0 then 1 else 0)
  {
    var last := |m| - 1;
    if last > 0 {
      assert ([0] + m)[..|m|] == [0] + m[..last];
      CountFromZero(m[..last]);
    } else {
      assert [0] + m == [0, m[0]];
      assert [0, m[0]][..1] == [0];
    }
  }

  /** `calculate_larger_measurements`: each measurement larger than the
      last one seen, starting from 0, adds one; one is taken off at the
      end for the first comparison. */
  method CalculateLargerMeasurements(measurements: seq<nat>) returns (count: nat)
    ensures count == Decrement32(Gaps([0] + measurements, 1))
  {
    count := 0;
    var lastMeasurement: nat := 0;
    for i := 0 to |measurements|
      invariant lastMeasurement == ([0] + measurements)[i]
      invariant count == Gaps(([0] + measurements)[..i + 1], 1)
    {
      assert ([0] + measurements)[..i + 2][..i + 1] == ([0] + measurements)[..i + 1];
      if measurements[i] > lastMeasurement {
        count := count + 1;
      }
      lastMeasurement := measurements[i];
    }
    assert ([0] + measurements)[..|measurements| + 1] == [0] + measurements;
    count := Decrement32(count);
  }

  /** The count is the number of increases exactly when the first
      measurement is positive, the assumption the comment makes; with a
      first measurement of 0 it is one short, or wraps round when there
      is no increase at all. */
  lemma LargerMeasurementsIff(measurements: seq<nat>)
    requires measurements != []
    ensures Decrement32(Gaps([0] + measurements, 1)) == Gaps(measurements, 1) <==> measurements[0] > 0
  {
    CountFromZero(measurements);
  }

  /** Without measurements the count wraps round. */
  lemma NoMeasurements()
    ensures Decrement32(Gaps([0], 1)) == U32_MODULUS - 1
  {
  }

  /** The sum of `m[i..i + 3]`, added up one measurement at a time by the
      inner loop. */
  method WindowSum(measurements: seq<nat>, i: nat) returns (m: nat)
    requires i + 3 <= |measurements|
    ensures m == Window(measurements, i)
  {
    m := 0;
    for j := i to i + 3
      invariant m == (if j > i then measurements[i] else 0) + (if j > i + 1 then measurements[i + 1] else 0) +
        (if j > i + 2 then measurements[i + 2] else 0)
    {
      m := m + measurements[j];
    }
  }

  /** `calculate_larger_measurements_by_windows`: the same count over the
      sums of the windows of three, stopping once a window would run past
      the end; the accumulator starts again from 0 for each window. */
  method CalculateLargerMeasurementsByWindows(measurements: seq<nat>) returns (count: nat)
    ensures count == Decrement32(Gaps([0] + WindowSums(measurements), 1))
  {
    count := 0;
    var lastMeasurement: nat := 0;
    ghost var windows := WindowSums(measurements);
    var i := 0;
    while i < |measurements|
      invariant i <= |windows|
      invariant lastMeasurement == ([0] + windows)[i]
      invariant count == Gaps(([0] + windows)[..i + 1], 1)
    {
      if i + 3 > |measurements| {
        break;
      }
      var m := WindowSum(measurements, i);
      assert m == windows[i];
      assert ([0] + windows)[..i + 2][..i + 1] == ([0] + windows)[..i + 1];
      if m > lastMeasurement {
        count := count + 1;
      }
      lastMeasurement := m;
      i := i + 1;
    }
    assert i == |windows|;
    assert ([0] + windows)[..i + 1] == [0] + windows;
    count := Decrement32(count);
  }

  /** The window count agrees with the Rust one, which compares
      measurements three apart, exactly when there is a window and the
      first window sum is positive. */
  lemma WindowCountIff(measurements: seq<nat>)
    requires |measurements| >= 3
    ensures Decrement32(Gaps([0] + WindowSums(measurements), 1)) == Gaps(measurements, 3) <==>
      measurements[0] + measurements[1] + measurements[2] > 0
  {
    CountFromZero(WindowSums(measurements));
    WindowIncreases(measurements);
  }
}
