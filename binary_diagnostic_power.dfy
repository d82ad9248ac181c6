/** The first version of the 2021 day 3 diagnostic (Rust, part one only):
    the same counters as the complete version, but a position whose
    counter is 0 gets a '0', so ties go to 0. Reading a binary string and
    inverting one are the same as in the complete version. */
module BinaryDiagnosticPower {
  import opened Text
  import opened BinaryDiagnostic

  /** The bit of a counter: '1' only when it is above 0. */
  function MostRepeatedStrict(counter: int): char
  {
    if counter > 0 then '1' else '0'
  }

  /** The most repeated bit of every position, ties going to 0, or `None`
      on a panic. */
  function MostRepeatedBitsTiesToZero(values: seq<string>): (r: Option<string>)
    ensures r.Some? <==> Balances(values).Some?
    ensures r.Some? ==> |r.value| == |values[0]| && IsBinary(r.value)
    ensures r.Some? ==> forall i :: 0 <= i < |r.value| ==> r.value[i] == MostRepeatedStrict(Balance(values, i))
  {
    match Balances(values)
    case None => None
    case Some(counters) => Some(seq(|counters|, i requires 0 <= i < |counters| => MostRepeatedStrict(counters[i])))
  }

  /** A position's bit is '1' exactly when more lines have something else
      there than have a '0'. */
  lemma MostRepeatedTiesToZero(values: seq<string>, i: nat)
    requires MostRepeatedBitsTiesToZero(values).Some? && i < |MostRepeatedBitsTiesToZero(values).value|
    ensures MostRepeatedBitsTiesToZero(values).value[i] == '1' <==> Ones(values, i) > Zeros(values, i)
  {
    BalanceCounts(values, i);
  }

  /** The two versions fail on the same reports and pick a different bit
      exactly at the positions where the zeros and the others tie. */
  lemma TiesDiffer(values: seq<string>, i: nat)
    requires MostRepeatedBitsTiesToZero(values).Some? && i < |values[0]|
    ensures MostRepeatedBits(values).Some?
    ensures MostRepeatedBitsTiesToZero(values).value[i] != MostRepeatedBits(values).value[i] <==> Ones(values, i) == Zeros(values, i)
  {
    BalanceCounts(values, i);
  }

  /** `get_most_repeated_bit`: the counting loop, then one bit per counter,
      ties going to 0. */
  method GetMostRepeatedBit(input: seq<string>) returns (bits: Option<string>)
    ensures bits == MostRepeatedBitsTiesToZero(input)
  {
    var counters := CountBits(input);
    if counters.None? {
      return None;
    }
    var s: string := [];
    for i := 0 to |counters.value|
      invariant |s| == i && forall k :: 0 <= k < i ==> s[k] == MostRepeatedStrict(counters.value[k])
    {
      s := s + [MostRepeatedStrict(counters.value[i])];
    }
    assert s == MostRepeatedBitsTiesToZero(input).value;
    return Some(s);
  }

  /** `execute` without its input and output: the power consumption of a
      report, the gamma rate times the epsilon rate read from the inverted
      bits; `None` on a panic, including the overflow of the `u32` product
      that a debug build checks. */
  function PowerConsumptionOf(report: seq<string>): Option<nat>
  {
    match MostRepeatedBitsTiesToZero(report)
    case None => None
    case Some(bits) =>
      match (IntFromBinaryString(bits), IntFromBinaryString(InvertBinaryString(bits)))
      case (Some(gamma), Some(epsilon)) =>
        if PowerConsumption(gamma, epsilon) <= U32_MAX then Some(PowerConsumption(gamma, epsilon)) else None
      case _ => None
  }

  /** The power consumption is the gamma rate times its complement within
      the width of the first line. */
  lemma PowerOfGammaTiesToZero(report: seq<string>)
    requires PowerConsumptionOf(report).Some?
    ensures IntFromBinaryString(MostRepeatedBitsTiesToZero(report).value).Some?
    ensures var gamma := IntFromBinaryString(MostRepeatedBitsTiesToZero(report).value).value;
      PowerConsumptionOf(report).value == gamma * (Pow2(|report[0]|) - 1 - gamma)
  {
    var bits := MostRepeatedBitsTiesToZero(report).value;
    InvertComplement(bits);
    var g, e := IntFromBinaryString(bits).value, IntFromBinaryString(InvertBinaryString(bits)).value;
    assert e == Pow2(|report[0]|) - 1 - g;
    assert PowerConsumptionOf(report) == Some(PowerConsumption(g, e));
  }

  /** Two numbers below `x` multiply to less than `x * x`. */
  lemma MulBelowSquare(a: nat, b: nat, x: nat)
    requires a < x && b < x
    ensures a * b < x * x
  {
    assert a * b <= a * x by {
      assert a * x - a * b == a * (x - b);
    }
    assert a * x < x * x by {
      assert x * x - a * x == (x - a) * x;
    }
  }

  /** Two numbers below 2^16 multiply to less than 2^32. */
  lemma ProductOfHalves(a: nat, b: nat)
    requires a < 65536 && b < 65536
    ensures a * b <= U32_MAX
  {
    MulBelowSquare(a, b, 65536);
  }

  /** A binary string of 1 to 16 digits reads as its value, which is below
      2^16. */
  lemma ShortBinaryReads(s: string)
    requires 1 <= |s| <= 16 && IsBinary(s)
    ensures IntFromBinaryString(s) == Some(BinaryValue(s)) && BinaryValue(s) < 65536
  {
    BinaryValueBound(s);
    Pow2Monotone(|s|, 16);
    Pow2Of16();
    assert s[0] != '+';
  }

  /** Whatever the lines hold, a report whose counting does not panic has
      a power consumption when its first line has 1 to 16 characters: the
      bits are binary, and the gamma and epsilon rates are then both below
      2^16, so their product fits in a `u32`. */
  lemma {:induction false} PowerConsumptionDefined(report: seq<string>)
    requires report != [] && 1 <= |report[0]| <= 16 && FitsWidth(report, |report[0]|)
    ensures PowerConsumptionOf(report).Some?
  {
    var bits := MostRepeatedBitsTiesToZero(report).value;
    var inverted := InvertBinaryString(bits);
    ShortBinaryReads(bits);
    ShortBinaryReads(inverted);
    var gamma, epsilon := BinaryValue(bits), BinaryValue(inverted);
    ProductOfHalves(gamma, epsilon);
    assert PowerConsumption(gamma, epsilon) <= U32_MAX;
  }
}
