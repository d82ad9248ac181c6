/** The binary diagnostic of 2021 day 3 (C++): a processor keeps twelve
    counters updated line by line for the gamma and epsilon rates, and
    filters the lines recursively, bit after bit, for the oxygen generator
    and CO2 scrubber ratings. */
module BinaryDiagnosticCpp {
  import opened Text
  import opened BinaryDiagnostic

  /** The size of `bit_array_`. */
  const WIDTH: nat := 12

  /** 2^32, the modulus of `uint32_t` arithmetic. */
  const U32_MODULUS: nat := 0x1_0000_0000

  /** What a character of a line adds to its counter: '0' takes one off,
      '1' adds one, anything else leaves it (the index moves on anyway). */
  function LineVote(c: char): int
  {
    if c == '0' then -1 else if c == '1' then 1 else 0
  }

  /** The counters after one more line. */
  function AddLine(counters: seq<int>, line: string): (r: seq<int>)
    requires |line| <= |counters|
    ensures |r| == |counters|
  {
    seq(|counters|, i requires 0 <= i < |counters| => counters[i] + (if i < |line| then LineVote(line[i]) else 0))
  }

  /** Every line fits in the counters. */
  predicate FitsCounters(lines: seq<string>, width: nat)
  {
    forall k :: 0 <= k < |lines| ==> |lines[k]| <= width
  }

  /** The counters after the lines, in order. */
  function AddLines(counters: seq<int>, lines: seq<string>): (r: seq<int>)
    requires FitsCounters(lines, |counters|)
    ensures |r| == |counters|
  {
    if lines == [] then counters
    else AddLine(AddLines(counters, lines[..|lines| - 1]), lines[|lines| - 1])
  }

  /** Twelve counters at 0. */
  function NoCounts(): seq<int>
  {
    seq(WIDTH, _ => 0)
  }

  /** Over binary lines, each counter ends as the Rust model's counter of
      its position: the other characters less the zeros. */
  lemma {:induction false} AddLinesBalance(lines: seq<string>, i: nat)
    requires FitsCounters(lines, WIDTH) && forall k :: 0 <= k < |lines| ==> IsBinary(lines[k])
    requires i < WIDTH
    ensures AddLines(NoCounts(), lines)[i] == Balance(lines, i)
  {
    if lines != [] {
      var last := |lines| - 1;
      AddLinesBalance(lines[..last], i);
    }
  }

  /** The bits of the gamma rate: 1 for a counter at or above 0. */
  function GammaBits(counters: seq<int>): (r: string)
    ensures |r| == |counters| && IsBinary(r)
  {
    seq(|counters|, i requires 0 <= i < |counters| => MostRepeated(counters[i]))
  }

  /** The counters after `calculate_gamma_and_epsilon_rates`: 1 for a
      counter at or above 0, 0 below. */
  function Signs(counters: seq<int>): (r: seq<int>)
    ensures |r| == |counters|
  {
    seq(|counters|, i requires 0 <= i < |counters| => if counters[i] >= 0 then 1 else 0)
  }

  /** One more counter turned into its bit, in the counters and in the two
      strings. */
  lemma SignsStep(counters: seq<int>, i: nat)
    requires i < |counters|
    ensures Signs(counters[..i + 1]) + counters[i + 1..] ==
      (Signs(counters[..i]) + counters[i..])[i := if counters[i] >= 0 then 1 else 0]
    ensures GammaBits(counters[..i + 1]) == GammaBits(counters[..i]) + [MostRepeated(counters[i])]
    ensures InvertBinaryString(GammaBits(counters[..i + 1])) ==
      InvertBinaryString(GammaBits(counters[..i])) + [if counters[i] >= 0 then '0' else '1']
  {
    var a, b := Signs(counters[..i + 1]) + counters[i + 1..], (Signs(counters[..i]) + counters[i..])[i := if counters[i] >= 0 then 1 else 0];
    assert |a| == |b|;
    forall k | 0 <= k < |a|
      ensures a[k] == b[k]
    {
      if k < i {
        assert a[k] == Signs(counters[..i + 1])[k] && b[k] == Signs(counters[..i])[k];
      }
    }
    var g, h := GammaBits(counters[..i + 1]), GammaBits(counters[..i]) + [MostRepeated(counters[i])];
    assert forall k :: 0 <= k < |g| ==> g[k] == h[k];
  }

  /** For binary lines of twelve characters, the gamma bits are the most
      repeated bits of the Rust model: ties go to 1 in both. */
  lemma GammaMatchesRust(lines: seq<string>)
    requires lines != [] && forall k :: 0 <= k < |lines| ==> IsBinary(lines[k]) && |lines[k]| == WIDTH
    ensures MostRepeatedBits(lines).Some?
    ensures GammaBits(AddLines(NoCounts(), lines)) == MostRepeatedBits(lines).value
  {
    var counters := AddLines(NoCounts(), lines);
    forall i | 0 <= i < WIDTH
      ensures counters[i] == Balance(lines, i)
    {
      AddLinesBalance(lines, i);
    }
  }

  /** `value[bit_to_check]` of a `std::string`: the character, or the
      '\0' that ends the string at its length. */
  function CharAt(s: string, i: nat): char
  {
    if i < |s| then s[i] else '\0'
  }

  /** What a value adds to the count of `get_most_common_bit`: -1 for a
      '0', +1 for anything else. */
  function BitVote(value: string, bit: nat): int
  {
    if CharAt(value, bit) == '0' then -1 else 1
  }

  /** The count of `get_most_common_bit` over the values, as an unbounded
      integer. */
  function Tally(values: seq<string>, bit: nat): (r: int)
    ensures -|values| <= r <= |values|
  {
    if values == [] then 0
    else Tally(values[..|values| - 1], bit) + BitVote(values[|values| - 1], bit)
  }

  /** `int8_t` arithmetic: the result of `count--` and `count++` taken back
      into -128..127, modulo 256. */
  function Wrap8(x: int): (r: int)
    ensures -128 <= r <= 127
    ensures -128 <= x <= 127 ==> r == x
  {
    (x + 128) % 256 - 128
  }

  /** The `int8_t` count, wrapped at every step. */
  function Count8(values: seq<string>, bit: nat): int
  {
    if values == [] then 0
    else Wrap8(Count8(values[..|values| - 1], bit) + BitVote(values[|values| - 1], bit))
  }

  /** Wrapping at every step is wrapping once at the end. */
  lemma {:induction false} Count8IsWrappedTally(values: seq<string>, bit: nat)
    ensures Count8(values, bit) == Wrap8(Tally(values, bit))
  {
    if values != [] {
      var last := |values| - 1;
      Count8IsWrappedTally(values[..last], bit);
      WrapAdd(Tally(values[..last], bit), BitVote(values[last], bit));
    }
  }

  /** Adding to a wrapped value and wrapping again is wrapping the sum. */
  lemma WrapAdd(x: int, d: int)
    ensures Wrap8(Wrap8(x) + d) == Wrap8(x + d)
  {
    var q := (x + 128) / 256;
    assert x + 128 == 256 * q + (x + 128) % 256;
    assert Wrap8(x) + d + 128 == (x + d + 128) - 256 * q;
  }

  /** The most common bit as `get_most_common_bit` computes it, with its
      count wrapping round in an `int8_t`. */
  function MostCommonBitAsWritten(values: seq<string>, bit: nat): char
  {
    if Count8(values, bit) >= 0 then '1' else '0'
  }

  /** The most common bit as it is meant: '1' when at least as many values
      have something else than a '0' at `bit`. */
  function MostCommonBit(values: seq<string>, bit: nat): char
  {
    if Tally(values, bit) >= 0 then '1' else '0'
  }

  /** Up to 127 values the count cannot wrap, and the two agree. */
  lemma MostCommonBitAgrees(values: seq<string>, bit: nat)
    requires |values| <= 127
    ensures MostCommonBitAsWritten(values, bit) == MostCommonBit(values, bit)
  {
    Count8IsWrappedTally(values, bit);
  }

  /** 128 values that all have a '1' at position 0 make the `int8_t`
      count wrap to -128, so the most common bit comes out as '0'. */
  lemma MostCommonBitWraps()
    ensures var values := seq(128, _ => "1");
      MostCommonBit(values, 0) == '1' && MostCommonBitAsWritten(values, 0) == '0'
  {
    var values := seq(128, _ => "1");
    AllOnesTally(values, 0);
    Count8IsWrappedTally(values, 0);
  }

  /** Values with anything but a '0' at `bit` count one each. */
  lemma {:induction false} AllOnesTally(values: seq<string>, bit: nat)
    requires forall k :: 0 <= k < |values| ==> CharAt(values[k], bit) != '0'
    ensures Tally(values, bit) == |values|
  {
    if values != [] {
      AllOnesTally(values[..|values| - 1], bit);
    }
  }

  /** Values with a '0' at `bit` take one off each. */
  lemma {:induction false} AllZerosTally(values: seq<string>, bit: nat)
    requires forall k :: 0 <= k < |values| ==> CharAt(values[k], bit) == '0'
    ensures Tally(values, bit) == -|values|
  {
    if values != [] {
      AllZerosTally(values[..|values| - 1], bit);
    }
  }

  /** Where every value reaches `bit`, the count is the counter of the Rust
      model, so the most common bit is its most repeated bit. */
  lemma {:induction false} TallyIsBalance(values: seq<string>, bit: nat)
    requires LongerThan(values, bit)
    ensures Tally(values, bit) == Balance(values, bit)
    ensures MostCommonBit(values, bit) == MostRepeated(Balance(values, bit))
  {
    if values != [] {
      TallyIsBalance(values[..|values| - 1], bit);
    }
  }

  /** `std::copy_if` into `bar`: the values whose character at `bit` is
      `value`, in order. */
  function CopyIf(values: seq<string>, bit: nat, value: char): (r: seq<string>)
    ensures |r| <= |values|
    ensures forall s :: s in r <==> s in values && CharAt(s, bit) == value
  {
    if values == [] then []
    else
      var last := |values| - 1;
      assert values == values[..last] + [values[last]];
      CopyIf(values[..last], bit, value) + (if CharAt(values[last], bit) == value then [values[last]] else [])
  }

  /** The length of the longest value. */
  function MaxLength(values: seq<string>): (r: nat)
    ensures forall s :: s in values ==> |s| <= r
  {
    if values == [] then 0
    else
      var last := |values| - 1;
      assert values == values[..last] + [values[last]];
      var m := MaxLength(values[..last]);
      if |values[last]| > m then |values[last]| else m
  }

  /** Values drawn from others are no longer than the longest of
      those. */
  lemma {:induction false} MaxLengthOfSubset(a: seq<string>, b: seq<string>)
    requires forall s :: s in a ==> s in b
    ensures MaxLength(a) <= MaxLength(b)
  {
    if a != [] {
      var last := |a| - 1;
      assert forall s :: s in a[..last] ==> s in a;
      MaxLengthOfSubset(a[..last], b);
    }
  }

  /** No value is shorter than `bit`: reading at the length gives '\0',
      and reading beyond it is undefined. */
  predicate Reaches(values: seq<string>, bit: nat)
  {
    forall s :: s in values ==> bit <= |s|
  }

  /** The measure of the recursion of `filter_by_bit_criteria`. */
  function FilterMeasure(measurements: seq<string>, bit: nat): nat
  {
    if measurements == [] || MaxLength(measurements) < bit then 0 else MaxLength(measurements) + 1 - bit
  }

  /** Values drawn from values that reach `bit` leave less to check from
      the next bit. */
  lemma FilterMeasureDecreases(measurements: seq<string>, bit: nat, bar: seq<string>)
    requires measurements != [] && Reaches(measurements, bit)
    requires forall s :: s in bar ==> s in measurements
    ensures FilterMeasure(bar, bit + 1) < FilterMeasure(measurements, bit)
  {
    MaxLengthOfSubset(bar, measurements);
    assert measurements[0] in measurements;
    if bar != [] {
      assert bar[0] in bar;
    }
  }

  /** `filter_by_bit_criteria`: one value left is the answer; otherwise
      keep the values with the most common bit at `bit` (or the other bit
      for the least common) and go on with the next bit. `None` stands for
      a call that never returns, which is what an empty list does, or one
      that reads past the end of a value. The count here does not wrap. */
  function FilterByBitCriteria(measurements: seq<string>, bit: nat, leastCommon: bool): (r: Option<string>)
    ensures r.Some? ==> r.value in measurements
    decreases FilterMeasure(measurements, bit)
  {
    if |measurements| == 1 then Some(measurements[0])
    else if measurements == [] || !Reaches(measurements, bit) then None
    else
      var common := MostCommonBit(measurements, bit);
      var value := if leastCommon then (if common == '0' then '1' else '0') else common;
      var bar := CopyIf(measurements, bit, value);
      FilterMeasureDecreases(measurements, bit, bar);
      FilterByBitCriteria(bar, bit + 1, leastCommon)
  }

  /** No two values are the same. */
  predicate Distinct(values: seq<string>)
  {
    forall i, j :: 0 <= i < j < |values| ==> values[i] != values[j]
  }

  /** Copying keeps values distinct. */
  lemma {:induction false} CopyIfDistinct(values: seq<string>, bit: nat, value: char)
    requires Distinct(values)
    ensures Distinct(CopyIf(values, bit, value))
  {
    if values != [] {
      var last := |values| - 1;
      assert Distinct(values[..last]);
      CopyIfDistinct(values[..last], bit, value);
      assert values[last] !in values[..last];
    }
  }

  /** Binary values all `width` long. */
  predicate Uniform(values: seq<string>, width: nat)
  {
    forall s :: s in values ==> |s| == width && IsBinary(s)
  }

  /** Binary values all `width` long that all start with `prefix`. */
  predicate Share(values: seq<string>, width: nat, prefix: string)
  {
    forall s :: s in values ==> |s| == width && IsBinary(s) && prefix <= s
  }

  /** Among distinct binary values of one width, the oxygen generator
      filter always ends with one value: the most common bit is held by
      some value, and values that agree on every bit are the same. The
      values reaching the bit after `prefix` all start with it. */
  lemma {:induction false} OxygenFound(measurements: seq<string>, prefix: string, width: nat)
    requires measurements != [] && Share(measurements, width, prefix) && Distinct(measurements)
    ensures FilterByBitCriteria(measurements, |prefix|, false).Some?
    decreases width - |prefix|
  {
    if |measurements| == 1 {
      FilterOfOne(measurements, |prefix|, false);
    } else {
      var bar, next := OxygenStep(measurements, prefix, width);
      OxygenFound(bar, next, width);
    }
  }

  /** A single value is the answer of the filter. */
  lemma FilterOfOne(measurements: seq<string>, bit: nat, leastCommon: bool)
    requires |measurements| == 1
    ensures FilterByBitCriteria(measurements, bit, leastCommon) == Some(measurements[0])
  {
  }

  /** One step of the oxygen generator filter over distinct values of one
      width: the values kept are not empty, still distinct, and share one
      more bit. */
  lemma OxygenStep(measurements: seq<string>, prefix: string, width: nat) returns (bar: seq<string>, next: string)
    requires |measurements| > 1 && Share(measurements, width, prefix) && Distinct(measurements)
    ensures |prefix| < width && |next| == |prefix| + 1
    ensures bar != [] && Share(bar, width, next) && Distinct(bar)
    ensures FilterByBitCriteria(measurements, |prefix|, false) == FilterByBitCriteria(bar, |next|, false)
  {
    var bit := |prefix|;
    BitsLeft(measurements, prefix, width);
    var common := MostCommonBit(measurements, bit);
    bar := CopyIf(measurements, bit, common);
    next := prefix + [common];
    FilterStep(measurements, bit, false, common);
    BarNotEmpty(measurements, bit, width);
    CopyIfDistinct(measurements, bit, common);
    BarShares(measurements, prefix, width, common);
  }

  /** Two distinct values of one width cannot share all of it, so values
      that share a prefix and are not all one leave bits to check. */
  lemma BitsLeft(measurements: seq<string>, prefix: string, width: nat)
    requires |measurements| > 1 && Share(measurements, width, prefix) && Distinct(measurements)
    ensures |prefix| < width
  {
    var x, y := measurements[0], measurements[1];
    assert x in measurements && y in measurements && x != y;
    assert |prefix| == width ==> x == prefix && y == prefix;
  }

  /** With more than one value, all reaching `bit`, the filter goes on
      with the values copied for the bit it picks. */
  lemma FilterStep(measurements: seq<string>, bit: nat, leastCommon: bool, value: char)
    requires |measurements| > 1 && Reaches(measurements, bit)
    requires value == if leastCommon then (if MostCommonBit(measurements, bit) == '0' then '1' else '0') else MostCommonBit(measurements, bit)
    ensures FilterByBitCriteria(measurements, bit, leastCommon) == FilterByBitCriteria(CopyIf(measurements, bit, value), bit + 1, leastCommon)
  {
  }

  /** The values copied for the bit after a shared prefix share the prefix
      and that bit. */
  lemma BarShares(measurements: seq<string>, prefix: string, width: nat, value: char)
    requires |prefix| < width && Share(measurements, width, prefix)
    ensures Share(CopyIf(measurements, |prefix|, value), width, prefix + [value])
  {
    var bar := CopyIf(measurements, |prefix|, value);
    forall u | u in bar
      ensures prefix + [value] <= u
    {
      assert u[..|prefix| + 1] == u[..|prefix|] + [u[|prefix|]];
    }
  }

  /** Among binary values, some value holds the most common bit. */
  lemma BarNotEmpty(measurements: seq<string>, bit: nat, width: nat)
    requires measurements != [] && bit < width && Uniform(measurements, width)
    ensures CopyIf(measurements, bit, MostCommonBit(measurements, bit)) != []
  {
    if MostCommonBit(measurements, bit) == '1' {
      if forall k :: 0 <= k < |measurements| ==> CharAt(measurements[k], bit) != '1' {
        assert forall k :: 0 <= k < |measurements| ==> measurements[k] in measurements;
        AllZerosTally(measurements, bit);
      }
      var k :| 0 <= k < |measurements| && CharAt(measurements[k], bit) == '1';
      assert measurements[k] in CopyIf(measurements, bit, '1');
    } else {
      if forall k :: 0 <= k < |measurements| ==> CharAt(measurements[k], bit) != '0' {
        AllOnesTally(measurements, bit);
      }
      var k :| 0 <= k < |measurements| && CharAt(measurements[k], bit) == '0';
      assert measurements[k] in CopyIf(measurements, bit, '0');
    }
  }

  /** The CO2 scrubber filter can empty the list and never return: two
      lines that share their first bit leave none with the least common
      one. */
  lemma Co2CanHang()
    ensures FilterByBitCriteria(["00", "01"], 0, true).None?
  {
    var m := ["00", "01"];
    assert m[..1] == ["00"];
    assert Tally(m, 0) == -2;
    assert m[..1][..0] == [];
    assert CopyIf(m[..1], 0, '1') == [];
    assert CopyIf(m, 0, '1') == [];
  }

  /** `processor`. */
  class Processor {
    var gammaRateBinaryString: string
    var epsilonRateBinaryString: string
    var oxygenGeneratorRatingBinaryString: string
    var co2ScrubberRatingBinaryString: string
    var gammaRate: nat
    var epsilonRate: nat
    var oxygenGeneratorRating: nat
    var co2ScrubberRating: nat
    /** `bit_array_`: one counter per position. */
    const bitArray: array<int>

    /** The counters and the two rates start at 0 and the strings empty;
        the two ratings are left uninitialised. */
    constructor ()
      ensures fresh(bitArray) && bitArray.Length == WIDTH && bitArray[..] == NoCounts()
      ensures gammaRate == 0 && epsilonRate == 0
      ensures gammaRateBinaryString == [] && epsilonRateBinaryString == []
      ensures oxygenGeneratorRatingBinaryString == [] && co2ScrubberRatingBinaryString == []
    {
      bitArray := new int[WIDTH](_ => 0);
      gammaRate, epsilonRate := 0, 0;
      gammaRateBinaryString, epsilonRateBinaryString := [], [];
      oxygenGeneratorRatingBinaryString, co2ScrubberRatingBinaryString := [], [];
    }

    /** `process_line`: each '0' takes one off the counter of its
        position and each '1' adds one; a line longer than the counters
        would write past them. */
    method ProcessLine(line: string)
      requires bitArray.Length == WIDTH && |line| <= WIDTH
      modifies bitArray
      ensures bitArray[..] == AddLine(old(bitArray[..]), line)
    {
      var index := 0;
      for k := 0 to |line|
        invariant index == k
        invariant forall i :: 0 <= i < WIDTH ==> bitArray[i] == old(bitArray[i]) + (if i < k then LineVote(line[i]) else 0)
      {
        if line[k] == '0' {
          bitArray[index] := bitArray[index] - 1;
        } else if line[k] == '1' {
          bitArray[index] := bitArray[index] + 1;
        }
        index := index + 1;
      }
      assert bitArray[..] == AddLine(old(bitArray[..]), line) by {
        assert forall i :: 0 <= i < WIDTH ==> bitArray[..][i] == AddLine(old(bitArray[..]), line)[i];
      }
    }

    /** `get_most_common_bit` as written: the count is an `int8_t`, so it
        wraps round past 127. */
    method GetMostCommonBit(values: seq<string>, bitToCheck: nat) returns (c: char)
      requires Reaches(values, bitToCheck)
      ensures c == MostCommonBitAsWritten(values, bitToCheck)
    {
      var count := 0;
      for k := 0 to |values|
        invariant count == Count8(values[..k], bitToCheck)
      {
        assert values[..k + 1][..k] == values[..k];
        if CharAt(values[k], bitToCheck) == '0' {
          count := Wrap8(count - 1);
        } else {
          count := Wrap8(count + 1);
        }
      }
      assert values[..|values|] == values;
      c := if count >= 0 then '1' else '0';
    }

    /** The `for_each` of `calculate_gamma_and_epsilon_rates`: every
        counter becomes its bit, 1 when at or above 0, the gamma string
        takes the bits and the epsilon string their negations. */
    method TakeBits() returns (gamma: string, epsilon: string)
      requires bitArray.Length == WIDTH
      modifies bitArray
      ensures bitArray[..] == Signs(old(bitArray[..]))
      ensures gamma == GammaBits(old(bitArray[..])) && epsilon == InvertBinaryString(gamma)
      ensures unchanged(this)
    {
      ghost var counters := bitArray[..];
      gamma, epsilon := [], [];
      for i := 0 to WIDTH
        invariant bitArray[..] == Signs(counters[..i]) + counters[i..]
        invariant gamma == GammaBits(counters[..i])
        invariant epsilon == InvertBinaryString(gamma)
      {
        var bit := if bitArray[i] >= 0 then 1 else 0;
        bitArray[i] := bit;
        gamma := gamma + [if bit == 1 then '1' else '0'];
        epsilon := epsilon + [if bit == 0 then '1' else '0'];
        SignsStep(counters, i);
      }
      assert counters[..WIDTH] == counters;
    }

    /** `calculate_gamma_and_epsilon_rates`: the bits of the counters, and
        the gamma and epsilon strings read as numbers. */
    method CalculateGammaAndEpsilonRates()
      requires bitArray.Length == WIDTH
      modifies this, bitArray
      ensures bitArray[..] == Signs(old(bitArray[..]))
      ensures gammaRateBinaryString == GammaBits(old(bitArray[..]))
      ensures epsilonRateBinaryString == InvertBinaryString(gammaRateBinaryString)
      ensures gammaRate == BinaryValue(gammaRateBinaryString) && epsilonRate == BinaryValue(epsilonRateBinaryString)
      ensures oxygenGeneratorRatingBinaryString == old(oxygenGeneratorRatingBinaryString)
      ensures co2ScrubberRatingBinaryString == old(co2ScrubberRatingBinaryString)
      ensures oxygenGeneratorRating == old(oxygenGeneratorRating) && co2ScrubberRating == old(co2ScrubberRating)
    {
      var gamma, epsilon := TakeBits();
      var g := BinToInt(gamma);
      var e := BinToInt(epsilon);
      gammaRateBinaryString, epsilonRateBinaryString, gammaRate, epsilonRate := gamma, epsilon, g, e;
    }

    /** `calculate_oxygen_and_co2_ratings`: the two filters from the first
        bit, and their values. */
    method CalculateOxygenAndCo2Ratings(measurements: seq<string>)
      requires FilterByBitCriteria(measurements, 0, false).Some? && FilterByBitCriteria(measurements, 0, true).Some?
      requires |FilterByBitCriteria(measurements, 0, false).value| <= 32
      requires |FilterByBitCriteria(measurements, 0, true).value| <= 32
      modifies this
      ensures oxygenGeneratorRatingBinaryString == FilterByBitCriteria(measurements, 0, false).value
      ensures co2ScrubberRatingBinaryString == FilterByBitCriteria(measurements, 0, true).value
      ensures oxygenGeneratorRating == BinaryValue(oxygenGeneratorRatingBinaryString)
      ensures co2ScrubberRating == BinaryValue(co2ScrubberRatingBinaryString)
      ensures gammaRateBinaryString == old(gammaRateBinaryString) && epsilonRateBinaryString == old(epsilonRateBinaryString)
      ensures gammaRate == old(gammaRate) && epsilonRate == old(epsilonRate)
    {
      oxygenGeneratorRatingBinaryString := FilterByBitCriteria(measurements, 0, false).value;
      co2ScrubberRatingBinaryString := FilterByBitCriteria(measurements, 0, true).value;
      oxygenGeneratorRating := BinToInt(oxygenGeneratorRatingBinaryString);
      co2ScrubberRating := BinToInt(co2ScrubberRatingBinaryString);
    }

    /** The power consumption `get_summary` reports, a product of two
        `uint32_t`. */
    function PowerConsumption(): (r: nat)
      reads this
      ensures r < U32_MODULUS
      ensures gammaRate * epsilonRate < U32_MODULUS ==> r == gammaRate * epsilonRate
    {
      (gammaRate * epsilonRate) % U32_MODULUS
    }

    /** The life support `get_summary` reports, a product of two
        `uint32_t`. */
    function LifeSupport(): (r: nat)
      reads this
      ensures r < U32_MODULUS
      ensures oxygenGeneratorRating * co2ScrubberRating < U32_MODULUS ==> r == oxygenGeneratorRating * co2ScrubberRating
    {
      (oxygenGeneratorRating * co2ScrubberRating) % U32_MODULUS
    }

    /** `bin_to_int`: each '1' adds 2 to the power of the digits after it;
        other characters add nothing. Up to 32 digits no power or sum
        leaves `uint32_t`. */
    method BinToInt(binData: string) returns (value: nat)
      requires |binData| <= 32
      ensures value == BinaryValue(binData) && value < U32_MODULUS
    {
      var len: int := |binData| - 1;
      value := 0;
      for k := 0 to |binData|
        invariant len == |binData| - 1 - k
        invariant value == BinaryValue(binData[..k]) * Pow2(|binData| - k)
      {
        BinToIntStep(binData, k);
        if binData[k] == '1' {
          value := value + Pow2(len);
        }
        len := len - 1;
      }
      assert binData[..|binData|] == binData;
      BinaryValueFits(binData);
    }
  }

  /** Whatever the counters, the gamma and epsilon rates they give add up
      to all ones: 2^12 - 1 for twelve counters. */
  lemma RatesComplement(counters: seq<int>)
    ensures BinaryValue(GammaBits(counters)) + BinaryValue(InvertBinaryString(GammaBits(counters))) == Pow2(|counters|) - 1
  {
    InvertComplement(GammaBits(counters));
  }

  /** One more digit of `bin_to_int`: the value of the first `k + 1`
      digits, shifted to its place, adds the power of the new digit. */
  lemma BinToIntStep(s: string, k: nat)
    requires k < |s|
    ensures BinaryValue(s[..k + 1]) * Pow2(|s| - k - 1) ==
      BinaryValue(s[..k]) * Pow2(|s| - k) + (if s[k] == '1' then Pow2(|s| - k - 1) else 0)
  {
    assert s[..k + 1][..k] == s[..k];
    ShiftDigit(BinaryValue(s[..k]), if s[k] == '1' then 1 else 0, |s| - k - 1);
  }

  /** A value doubled with one more digit, shifted by `n` places. */
  lemma ShiftDigit(v: nat, b: nat, n: nat)
    ensures (2 * v + b) * Pow2(n) == v * Pow2(n + 1) + b * Pow2(n)
  {
    var p := Pow2(n);
    assert Pow2(n + 1) == 2 * p;
    assert (2 * v + b) * p == 2 * v * p + b * p;
  }

  /** Up to 32 digits a value fits in `uint32_t`. */
  lemma BinaryValueFits(s: string)
    requires |s| <= 32
    ensures BinaryValue(s) < U32_MODULUS
  {
    BinaryValueBound(s);
    Pow2Monotone(|s|, 32);
    Pow2Of32();
  }

  /** `main` without its file: a processor fed the lines, then both
      calculations. For binary lines of twelve characters the gamma bits
      are the Rust model's most repeated bits, and the two rates add up to
      2^12 - 1. */
  method Diagnose(lines: seq<string>) returns (p: Processor)
    requires lines != [] && forall k :: 0 <= k < |lines| ==> IsBinary(lines[k]) && |lines[k]| == WIDTH
    requires FilterByBitCriteria(lines, 0, false).Some? && FilterByBitCriteria(lines, 0, true).Some?
    ensures MostRepeatedBits(lines).Some? && p.gammaRateBinaryString == MostRepeatedBits(lines).value
    ensures p.gammaRate + p.epsilonRate == Pow2(WIDTH) - 1
    ensures p.oxygenGeneratorRatingBinaryString == FilterByBitCriteria(lines, 0, false).value
    ensures p.co2ScrubberRatingBinaryString == FilterByBitCriteria(lines, 0, true).value
  {
    p := new Processor();
    for k := 0 to |lines|
      invariant p.bitArray.Length == WIDTH && p.bitArray[..] == AddLines(NoCounts(), lines[..k])
    {
      assert lines[..k + 1][..k] == lines[..k];
      p.ProcessLine(lines[k]);
    }
    assert lines[..|lines|] == lines;
    GammaMatchesRust(lines);
    RatesComplement(p.bitArray[..]);
    p.CalculateGammaAndEpsilonRates();
    p.CalculateOxygenAndCo2Ratings(lines);
  }
}
