/** The binary diagnostic of 2021 day 3 (Rust, both parts): every report
    line is a binary number; the gamma rate takes the most common bit of
    each position, the epsilon rate the least common, and the oxygen and
    CO2 ratings filter the lines position by position on those bits until
    one line is left. */
module BinaryDiagnostic {
  import opened Text

  /** A string of '0' and '1' only. */
  predicate IsBinary(s: string)
  {
    forall i :: 0 <= i < |s| ==> s[i] == '0' || s[i] == '1'
  }

  /** 2 to the power `n`. */
  function Pow2(n: nat): (r: nat)
    ensures r >= 1
  {
    if n == 0 then 1 else 2 * Pow2(n - 1)
  }

  /** 2^n grows with n. */
  lemma {:induction false} Pow2Monotone(m: nat, n: nat)
    requires m <= n
    ensures Pow2(m) <= Pow2(n)
    decreases n
  {
    if m < n {
      Pow2Monotone(m, n - 1);
    }
  }

  /** Powers of two multiply by adding their exponents. */
  lemma {:induction false} Pow2Add(a: nat, b: nat)
    ensures Pow2(a + b) == Pow2(a) * Pow2(b)
    decreases b
  {
    if b > 0 {
      Pow2Add(a, b - 1);
    }
  }

  /** 2^16 is 65536. */
  lemma Pow2Of16()
    ensures Pow2(16) == 65536
  {
    assert Pow2(2) == 4;
    Pow2Add(2, 2);
    Pow2Add(4, 4);
    assert Pow2(8) == 256;
    Pow2Add(8, 8);
  }

  /** 2^32 - 1 is the largest `u32`. */
  lemma Pow2Of32()
    ensures Pow2(32) == U32_MAX + 1
  {
    Pow2Of16();
    Pow2Add(16, 16);
  }

  /** The base-2 value of a string, most significant digit first, where
      '1' counts as a one and anything else as a zero. */
  function BinaryValue(s: string): nat
  {
    if s == [] then 0 else 2 * BinaryValue(s[..|s| - 1]) + (if s[|s| - 1] == '1' then 1 else 0)
  }

  /** A string of `n` digits is worth less than 2^n. */
  lemma {:induction false} BinaryValueBound(s: string)
    ensures BinaryValue(s) < Pow2(|s|)
  {
    if s != [] {
      BinaryValueBound(s[..|s| - 1]);
    }
  }

  /** `int_from_binary_string`: `u32::from_str_radix(s, 2)`, which takes an
      optional '+' and then at least one binary digit, and fails when the
      value does not fit in 32 bits; `expect` turns a failure into a
      panic. */
  function IntFromBinaryString(s: string): (r: Option<nat>)
    ensures r.Some? ==> r.value <= U32_MAX
  {
    var digits := if s != [] && s[0] == '+' then s[1..] else s;
    if digits == [] || !IsBinary(digits) || BinaryValue(digits) > U32_MAX then None
    else Some(BinaryValue(digits))
  }

  /** The `width`-digit binary string of `n`. */
  function ToBinary(n: nat, width: nat): (s: string)
    ensures |s| == width && IsBinary(s)
  {
    if width == 0 then [] else ToBinary(n / 2, width - 1) + [if n % 2 == 1 then '1' else '0']
  }

  /** Writing a number below 2^width in `width` digits and reading them
      back gives the number. */
  lemma {:induction false} BinaryValueToBinary(n: nat, width: nat)
    requires n < Pow2(width)
    ensures BinaryValue(ToBinary(n, width)) == n
  {
    if width > 0 {
      var s := ToBinary(n, width);
      assert s[..|s| - 1] == ToBinary(n / 2, width - 1);
      BinaryValueToBinary(n / 2, width - 1);
    }
  }

  /** A number that fits in 32 bits, written in binary, reads back as
      itself. */
  lemma IntFromToBinary(n: nat, width: nat)
    requires 1 <= width && n < Pow2(width) && n <= U32_MAX
    ensures IntFromBinaryString(ToBinary(n, width)) == Some(n)
  {
    BinaryValueToBinary(n, width);
  }

  /** The test value: "01100" is 12. */
  lemma IntFromBinaryStringExample()
    ensures IntFromBinaryString("01100") == Some(12)
  {
    assert "01100"[..4] == "0110" && "0110"[..3] == "011" && "011"[..2] == "01" && "01"[..1] == "0";
    assert BinaryValue("0") == 0 && BinaryValue("01") == 1 && BinaryValue("011") == 3;
  }

  /** `invert_binary_string`: '0' becomes '1' and every other character
      '0'. */
  function InvertBinaryString(s: string): (r: string)
    ensures |r| == |s| && IsBinary(r)
  {
    seq(|s|, i requires 0 <= i < |s| => if s[i] == '0' then '1' else '0')
  }

  /** Inverting a binary string twice gives it back. */
  lemma InvertInvert(s: string)
    requires IsBinary(s)
    ensures InvertBinaryString(InvertBinaryString(s)) == s
  {
    var r := InvertBinaryString(InvertBinaryString(s));
    assert forall i :: 0 <= i < |s| ==> r[i] == s[i];
  }

  /** The test inversion: "01010" becomes "10101". */
  lemma InvertExample()
    ensures InvertBinaryString("01010") == "10101"
  {
  }

  /** A binary string and its inverse add up to all ones. */
  lemma {:induction false} InvertComplement(s: string)
    requires IsBinary(s)
    ensures BinaryValue(s) + BinaryValue(InvertBinaryString(s)) == Pow2(|s|) - 1
  {
    if s != [] {
      var last := |s| - 1;
      var r := InvertBinaryString(s);
      assert r[..last] == InvertBinaryString(s[..last]);
      InvertComplement(s[..last]);
    }
  }

  /** What one line adds to the counter of position `i`: -1 for a '0',
      +1 for anything else, nothing when the line is shorter. */
  function Vote(value: string, i: nat): int
  {
    if i >= |value| then 0 else if value[i] == '0' then -1 else 1
  }

  /** The counter of position `i` after all the lines. */
  function Balance(values: seq<string>, i: nat): int
  {
    if values == [] then 0
    else Balance(values[..|values| - 1], i) + Vote(values[|values| - 1], i)
  }

  /** The lines with a '0' at position `i`. */
  function Zeros(values: seq<string>, i: nat): nat
  {
    if values == [] then 0
    else
      var last := values[|values| - 1];
      Zeros(values[..|values| - 1], i) + (if i < |last| && last[i] == '0' then 1 else 0)
  }

  /** The lines with anything but a '0' at position `i`. */
  function Ones(values: seq<string>, i: nat): nat
  {
    if values == [] then 0
    else
      var last := values[|values| - 1];
      Ones(values[..|values| - 1], i) + (if i < |last| && last[i] != '0' then 1 else 0)
  }

  /** The counter is the ones less the zeros. */
  lemma {:induction false} BalanceCounts(values: seq<string>, i: nat)
    ensures Balance(values, i) == Ones(values, i) - Zeros(values, i)
  {
    if values != [] {
      BalanceCounts(values[..|values| - 1], i);
    }
  }

  /** No line is longer than `width`. */
  predicate FitsWidth(values: seq<string>, width: nat)
  {
    forall k :: 0 <= k < |values| ==> |values[k]| <= width
  }

  /** The counters of `get_most_repeated_bit`: one per character of the
      first line; without lines `input[0]` panics, and a longer line
      indexes past the counters and panics. */
  function Balances(values: seq<string>): (r: Option<seq<int>>)
    ensures r.Some? ==> values != [] && |r.value| == |values[0]|
    ensures r.Some? ==> forall i :: 0 <= i < |r.value| ==> r.value[i] == Balance(values, i)
  {
    if values == [] || !FitsWidth(values, |values[0]|) then None
    else Some(seq(|values[0]|, i requires 0 <= i < |values[0]| => Balance(values, i)))
  }

  /** `Balances` fails exactly without lines or with a line longer than the
      first. */
  lemma BalancesFail(values: seq<string>)
    ensures Balances(values).None? <==> values == [] || exists k :: 0 <= k < |values| && |values[k]| > |values[0]|
  {
  }

  /** The counting loop of `get_most_repeated_bit`, over a vector of
      counters changed in place. */
  method CountBits(input: seq<string>) returns (counters: Option<seq<int>>)
    ensures counters == Balances(input)
  {
    if |input| == 0 {
      return None;
    }
    var tmp := new int[|input[0]|](_ => 0);
    for v := 0 to |input|
      invariant FitsWidth(input[..v], tmp.Length)
      invariant forall i :: 0 <= i < tmp.Length ==> tmp[i] == Balance(input[..v], i)
    {
      var value := input[v];
      assert input[..v + 1][..v] == input[..v];
      if |value| > tmp.Length {
        assert !FitsWidth(input, |input[0]|) by {
          assert |input[v]| > |input[0]|;
        }
        return None;
      }
      for i := 0 to |value|
        invariant forall j :: 0 <= j < tmp.Length ==> tmp[j] == Balance(input[..v], j) + (if j < i then Vote(value, j) else 0)
      {
        if value[i] == '0' {
          tmp[i] := tmp[i] - 1;
        } else {
          tmp[i] := tmp[i] + 1;
        }
      }
      assert FitsWidth(input[..v + 1], tmp.Length) by {
        assert forall k :: 0 <= k < v ==> input[..v + 1][k] == input[..v][k];
      }
    }
    assert input[..|input|] == input;
    var b := Balances(input).value;
    assert tmp[..] == b by {
      assert forall i :: 0 <= i < tmp.Length ==> tmp[..][i] == b[i];
    }
    return Some(tmp[..]);
  }

  /** The bit of a counter: '1' when it is at or above 0, so ties go to 1. */
  function MostRepeated(counter: int): char
  {
    if counter >= 0 then '1' else '0'
  }

  /** The most repeated bit of every position, or `None` on a panic. */
  function MostRepeatedBits(values: seq<string>): (r: Option<string>)
    ensures r.Some? <==> Balances(values).Some?
    ensures r.Some? ==> |r.value| == |values[0]| && IsBinary(r.value)
    ensures r.Some? ==> forall i :: 0 <= i < |r.value| ==> r.value[i] == MostRepeated(Balance(values, i))
  {
    match Balances(values)
    case None => None
    case Some(counters) => Some(seq(|counters|, i requires 0 <= i < |counters| => MostRepeated(counters[i])))
  }

  /** A position's most repeated bit is '1' exactly when at least as many
      lines have something else there as have a '0'. */
  lemma MostRepeatedTiesToOne(values: seq<string>, i: nat)
    requires MostRepeatedBits(values).Some? && i < |MostRepeatedBits(values).value|
    ensures MostRepeatedBits(values).value[i] == '1' <==> Ones(values, i) >= Zeros(values, i)
  {
    BalanceCounts(values, i);
  }

  /** `get_most_repeated_bit`: the counting loop, then one bit per
      counter. */
  method GetMostRepeatedBit(input: seq<string>) returns (bits: Option<string>)
    ensures bits == MostRepeatedBits(input)
  {
    var counters := CountBits(input);
    if counters.None? {
      return None;
    }
    var s: string := [];
    for i := 0 to |counters.value|
      invariant |s| == i && forall k :: 0 <= k < i ==> s[k] == MostRepeated(counters.value[k])
    {
      s := s + [MostRepeated(counters.value[i])];
    }
    assert s == MostRepeatedBits(input).value;
    return Some(s);
  }

  /** `get_gamma_rate`. */
  function GammaRate(input: seq<string>): Option<nat>
  {
    match MostRepeatedBits(input)
    case None => None
    case Some(bits) => IntFromBinaryString(bits)
  }

  /** `get_epsilon_rate`. */
  function EpsilonRate(input: seq<string>): Option<nat>
  {
    match MostRepeatedBits(input)
    case None => None
    case Some(bits) => IntFromBinaryString(InvertBinaryString(bits))
  }

  /** The epsilon rate is the bitwise complement of the gamma rate: the
      two add up to 2^width - 1, width being that of the first line. */
  lemma GammaEpsilonComplement(input: seq<string>)
    requires GammaRate(input).Some? && EpsilonRate(input).Some?
    ensures GammaRate(input).value + EpsilonRate(input).value == Pow2(|input[0]|) - 1
  {
    var bits := MostRepeatedBits(input).value;
    InvertComplement(bits);
  }

  /** `calculate_power_consumption`. */
  function PowerConsumption(gammaRate: nat, epsilonRate: nat): nat
  {
    gammaRate * epsilonRate
  }

  /** `calculate_life_support`. */
  function LifeSupport(oxygenGeneratorRating: nat, co2ScrubberRating: nat): nat
  {
    oxygenGeneratorRating * co2ScrubberRating
  }

  /** The power consumption is the gamma rate times its complement. */
  lemma PowerOfGamma(input: seq<string>)
    requires GammaRate(input).Some? && EpsilonRate(input).Some?
    ensures PowerConsumption(GammaRate(input).value, EpsilonRate(input).value) ==
      GammaRate(input).value * (Pow2(|input[0]|) - 1 - GammaRate(input).value)
  {
    GammaEpsilonComplement(input);
    var g, e := GammaRate(input).value, EpsilonRate(input).value;
    assert e == Pow2(|input[0]|) - 1 - g;
  }

  /** Every line is longer than `pos`. */
  predicate LongerThan(values: seq<string>, pos: nat)
  {
    forall k :: 0 <= k < |values| ==> pos < |values[k]|
  }

  /** The lines whose character at `pos` is `bit`, in their order. */
  function Keep(values: seq<string>, bit: char, pos: nat): seq<string>
    requires LongerThan(values, pos)
  {
    if values == [] then []
    else
      var last := |values| - 1;
      Keep(values[..last], bit, pos) + (if values[last][pos] == bit then [values[last]] else [])
  }

  /** A line is kept exactly when it is one of the lines and has `bit` at
      `pos`. */
  lemma {:induction false} KeepMembers(values: seq<string>, bit: char, pos: nat, s: string)
    requires LongerThan(values, pos)
    ensures s in Keep(values, bit, pos) <==> s in values && pos < |s| && s[pos] == bit
  {
    if values != [] {
      var last := |values| - 1;
      KeepMembers(values[..last], bit, pos, s);
      assert values == values[..last] + [values[last]];
    }
  }

  /** Keeping preserves the order: the lines kept from two runs are those
      kept from the first run followed by those kept from the second. */
  lemma {:induction false} KeepConcat(a: seq<string>, b: seq<string>, bit: char, pos: nat)
    requires LongerThan(a, pos) && LongerThan(b, pos)
    ensures LongerThan(a + b, pos)
    ensures Keep(a + b, bit, pos) == Keep(a, bit, pos) + Keep(b, bit, pos)
    decreases |b|
  {
    assert forall k :: 0 <= k < |a + b| ==> (a + b)[k] == if k < |a| then a[k] else b[k - |a|];
    if b != [] {
      var last := |b| - 1;
      assert (a + b)[..|a + b| - 1] == a + b[..last];
      assert (a + b)[|a + b| - 1] == b[last];
      KeepConcat(a, b[..last], bit, pos);
    } else {
      assert a + b == a;
    }
  }

  /** `filter_by_same_bit_in_a_position`: `retain` the lines whose
      character at `pos` is the mask's; reading past the end of a line,
      or of the mask when there is a line, panics. */
  function FilterBySameBit(input: seq<string>, mask: string, pos: nat): (r: Option<seq<string>>)
    ensures r.Some? <==> LongerThan(input, pos) && (input != [] ==> pos < |mask|)
  {
    if !LongerThan(input, pos) || (input != [] && pos >= |mask|) then None
    else if input == [] then Some([])
    else Some(Keep(input, mask[pos], pos))
  }

  /** `filter_by_most_common_bit` and `filter_by_less_common_bit`: the
      lines that have the most repeated bit at `pos`, or its inverse. */
  function FilterByCommonBit(input: seq<string>, pos: nat, lessCommon: bool): Option<seq<string>>
  {
    match MostRepeatedBits(input)
    case None => None
    case Some(mcb) => FilterBySameBit(input, if lessCommon then InvertBinaryString(mcb) else mcb, pos)
  }

  /** Among binary lines, filtering on the most repeated bit keeps at
      least one line, since the bit that wins is held by some line. */
  lemma MostCommonKeepsOne(input: seq<string>, pos: nat)
    requires input != [] && forall k :: 0 <= k < |input| ==> IsBinary(input[k]) && |input[k]| == |input[0]|
    requires pos < |input[0]|
    ensures FilterByCommonBit(input, pos, false).Some? && FilterByCommonBit(input, pos, false).value != []
  {
    var mcb := MostRepeatedBits(input).value;
    BalanceCounts(input, pos);
    OnesZerosCover(input, pos);
    if mcb[pos] == '1' {
      assert Ones(input, pos) > 0;
      var k := HasOne(input, pos);
      KeepMembers(input, '1', pos, input[k]);
    } else {
      assert Zeros(input, pos) > 0;
      var k := HasZero(input, pos);
      KeepMembers(input, '0', pos, input[k]);
    }
  }

  /** When every line reaches `pos`, each of them is a one or a zero
      there. */
  lemma {:induction false} OnesZerosCover(values: seq<string>, pos: nat)
    requires LongerThan(values, pos)
    ensures Ones(values, pos) + Zeros(values, pos) == |values|
  {
    if values != [] {
      OnesZerosCover(values[..|values| - 1], pos);
    }
  }

  /** A line with a one at `pos`, when some line has one, among binary
      lines. */
  lemma {:induction false} HasOne(values: seq<string>, pos: nat) returns (k: nat)
    requires Ones(values, pos) > 0 && forall j :: 0 <= j < |values| ==> IsBinary(values[j])
    ensures k < |values| && pos < |values[k]| && values[k][pos] == '1'
  {
    var last := |values| - 1;
    var v := values[last];
    if pos < |v| && v[pos] != '0' {
      k := last;
    } else {
      k := HasOne(values[..last], pos);
    }
  }

  /** A line with a zero at `pos`, when some line has one. */
  lemma {:induction false} HasZero(values: seq<string>, pos: nat) returns (k: nat)
    requires Zeros(values, pos) > 0
    ensures k < |values| && pos < |values[k]| && values[k][pos] == '0'
  {
    var last := |values| - 1;
    var v := values[last];
    if pos < |v| && v[pos] == '0' {
      k := last;
    } else {
      k := HasZero(values[..last], pos);
    }
  }

  /** The loop of the ratings from position `i` on: filter on the bit of
      that position and stop as soon as one line is left, for at most `n`
      positions (the number of lines, as `enumerate` goes). */
  function Refine(tmp: seq<string>, i: nat, n: nat, lessCommon: bool): Option<seq<string>>
    decreases n - i
  {
    if i >= n then Some(tmp)
    else
      match FilterByCommonBit(tmp, i, lessCommon)
      case None => None
      case Some(t) => if |t| == 1 then Some(t) else Refine(t, i + 1, n, lessCommon)
  }

  /** `get_oxygen_generator_rating` and `get_co2_scrubber_rating`: the
      first line left, read as a binary number; reading it panics when no
      line is left. */
  function Rating(input: seq<string>, lessCommon: bool): Option<nat>
  {
    match Refine(input, 0, |input|, lessCommon)
    case None => None
    case Some(t) => if t == [] then None else IntFromBinaryString(t[0])
  }

  /** The lines left are lines of the report. */
  lemma {:induction false} RefineKeepsLines(tmp: seq<string>, i: nat, n: nat, lessCommon: bool)
    requires Refine(tmp, i, n, lessCommon).Some?
    ensures forall s :: s in Refine(tmp, i, n, lessCommon).value ==> s in tmp
    decreases n - i
  {
    if i < n {
      var t := FilterByCommonBit(tmp, i, lessCommon).value;
      var mask := if lessCommon then InvertBinaryString(MostRepeatedBits(tmp).value) else MostRepeatedBits(tmp).value;
      forall s | s in t
        ensures s in tmp
      {
        KeepMembers(tmp, mask[i], i, s);
      }
      if |t| != 1 {
        RefineKeepsLines(t, i + 1, n, lessCommon);
      }
    }
  }

  /** A rating is the value of one of the lines of the report. */
  lemma RatingIsALine(input: seq<string>, lessCommon: bool)
    requires Rating(input, lessCommon).Some?
    ensures exists s :: s in input && IntFromBinaryString(s) == Rating(input, lessCommon)
  {
    RefineKeepsLines(input, 0, |input|, lessCommon);
    var t := Refine(input, 0, |input|, lessCommon).value;
    assert t[0] in input;
  }

  /** The loop of the ratings, reassigning `tmp` and stopping early. */
  method FilterLoop(input: seq<string>, lessCommon: bool) returns (r: Option<seq<string>>)
    ensures r == Refine(input, 0, |input|, lessCommon)
  {
    var tmp := input;
    for i := 0 to |input|
      invariant Refine(input, 0, |input|, lessCommon) == Refine(tmp, i, |input|, lessCommon)
    {
      var filtered := FilterByCommonBit(tmp, i, lessCommon);
      if filtered.None? {
        return None;
      }
      tmp := filtered.value;
      if |tmp| == 1 {
        return Some(tmp);
      }
    }
    return Some(tmp);
  }

  /** The life support rating multiplies the values of two lines of the
      report: the one the oxygen filter keeps and the one the CO2 filter
      keeps. */
  lemma LifeSupportOfLines(input: seq<string>)
    requires Rating(input, false).Some? && Rating(input, true).Some?
    ensures exists oxygen, co2 ::
      && oxygen in input && co2 in input
      && IntFromBinaryString(oxygen) == Rating(input, false) && IntFromBinaryString(co2) == Rating(input, true)
      && LifeSupport(Rating(input, false).value, Rating(input, true).value) ==
         IntFromBinaryString(oxygen).value * IntFromBinaryString(co2).value
  {
    RatingIsALine(input, false);
    RatingIsALine(input, true);
    var oxygen :| oxygen in input && IntFromBinaryString(oxygen) == Rating(input, false);
    var co2 :| co2 in input && IntFromBinaryString(co2) == Rating(input, true);
  }

  method GetOxygenGeneratorRating(input: seq<string>) returns (r: Option<nat>)
    ensures r == Rating(input, false)
  {
    var tmp := FilterLoop(input, false);
    if tmp.None? || tmp.value == [] {
      return None;
    }
    return IntFromBinaryString(tmp.value[0]);
  }

  /** `get_co2_scrubber_rating`. */
  method GetCo2ScrubberRating(input: seq<string>) returns (r: Option<nat>)
    ensures r == Rating(input, true)
  {
    var tmp := FilterLoop(input, true);
    if tmp.None? || tmp.value == [] {
      return None;
    }
    return IntFromBinaryString(tmp.value[0]);
  }
}
