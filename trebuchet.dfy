/** The calibration document of 2023 day 1: every line holds a calibration
    value made of its first and its last digit; with `check_spelled` set, the
    words `one` to `nine` count as digits too. */
module Trebuchet {
  import opened Text

  /** `SPELLED_DIGITS[j]`: the word of digit `j + 1`, as "zero" is not among
      them. */
  function Word(j: nat): (w: string)
    requires j < 9
    ensures 3 <= |w| <= 5
  {
    match j
    case 0 => "one"
    case 1 => "two"
    case 2 => "three"
    case 3 => "four"
    case 4 => "five"
    case 5 => "six"
    case 6 => "seven"
    case 7 => "eight"
    case 8 => "nine"
  }

  /** The first entry from `j` on that holds, counted from one: the loop over
      `SPELLED_DIGITS` returns `j + 1` for the first word `j` that matches. */
  function FirstHit(hits: seq<bool>, j: nat): (r: Option<nat>)
    requires j <= |hits|
    ensures r.Some? ==> j < r.value <= |hits|
    decreases |hits| - j
  {
    if j == |hits| then None
    else if hits[j] then Some(j + 1)
    else FirstHit(hits, j + 1)
  }

  /** The entry found holds and none before it does; with none found, none
      holds. */
  lemma {:induction false} FirstHitSpec(hits: seq<bool>, j: nat)
    requires j <= |hits|
    ensures var r := FirstHit(hits, j);
      (r.Some? ==> hits[r.value - 1] && forall k :: j <= k < r.value - 1 ==> !hits[k]) &&
      (r.None? ==> forall k :: j <= k < |hits| ==> !hits[k])
    decreases |hits| - j
  {
    if j < |hits| && !hits[j] {
      FirstHitSpec(hits, j + 1);
    }
  }

  /** The entry that holds after none before it is the one found. */
  lemma {:induction false} FirstHitAt(hits: seq<bool>, j: nat, w: nat)
    requires j <= w < |hits| && hits[w]
    requires forall k :: j <= k < w ==> !hits[k]
    ensures FirstHit(hits, j) == Some(w + 1)
    decreases w - j
  {
    if j < w {
      FirstHitAt(hits, j + 1, w);
    }
  }

  /** For each word in order, whether `rest` starts with it. */
  function PrefixHits(rest: string): (hits: seq<bool>)
    ensures |hits| == 9
  {
    seq(9, k requires 0 <= k < 9 => Word(k) <= rest)
  }

  /** For each word in order, whether `p` ends with it. */
  function SuffixHits(p: string): (hits: seq<bool>)
    ensures |hits| == 9
  {
    seq(9, k requires 0 <= k < 9 => EndsWith(p, Word(k)))
  }

  /** The digit spelled by the first word `rest` starts with. */
  function SpelledPrefix(rest: string): (r: Option<nat>)
    ensures r.Some? ==> 0 < r.value <= 9
  {
    FirstHit(PrefixHits(rest), 0)
  }

  /** The digit spelled by the first word `p` ends with. */
  function SpelledSuffix(p: string): (r: Option<nat>)
    ensures r.Some? ==> 0 < r.value <= 9
  {
    FirstHit(SuffixHits(p), 0)
  }

  /** The word found starts the text and no word before it does; with none
      found, no word starts it. */
  lemma SpelledPrefixSpec(rest: string)
    ensures var r := SpelledPrefix(rest);
      (r.Some? ==> Word(r.value - 1) <= rest && forall k :: 0 <= k < r.value - 1 ==> !(Word(k) <= rest)) &&
      (r.None? ==> forall k :: 0 <= k < 9 ==> !(Word(k) <= rest))
  {
    var hits := PrefixHits(rest);
    FirstHitSpec(hits, 0);
    forall k | 0 <= k < 9 ensures hits[k] == (Word(k) <= rest) {
    }
  }

  /** The word found ends the text and no word before it does; with none
      found, no word ends it. */
  lemma SpelledSuffixSpec(p: string)
    ensures var r := SpelledSuffix(p);
      (r.Some? ==> EndsWith(p, Word(r.value - 1)) && forall k :: 0 <= k < r.value - 1 ==> !EndsWith(p, Word(k))) &&
      (r.None? ==> forall k :: 0 <= k < 9 ==> !EndsWith(p, Word(k)))
  {
    var hits := SuffixHits(p);
    FirstHitSpec(hits, 0);
    forall k | 0 <= k < 9 ensures hits[k] == EndsWith(p, Word(k)) {
    }
  }

  /** The digit that starts at index `i`: an ASCII digit, or a spelled one
      when spelled digits count. */
  function DigitAt(s: string, i: nat, spelled: bool): (r: Option<nat>)
    requires i < |s|
    ensures r.Some? ==> r.value < 10
    ensures !spelled ==> (r.Some? <==> IsDigit(s[i]))
  {
    if IsDigit(s[i]) then Some(DigitValue(s[i]))
    else if !spelled then None
    else SpelledPrefix(s[i..])
  }

  /** The digit that ends at index `i`, the mirror of `DigitAt`. */
  function DigitEndingAt(s: string, i: nat, spelled: bool): (r: Option<nat>)
    requires i < |s|
    ensures r.Some? ==> r.value < 10
    ensures !spelled ==> (r.Some? <==> IsDigit(s[i]))
  {
    if IsDigit(s[i]) then Some(DigitValue(s[i]))
    else if !spelled then None
    else SpelledSuffix(s[..i + 1])
  }

  /** The first index from `i` on where a digit starts. */
  function FirstDigitIndex(s: string, spelled: bool, i: nat): (r: Option<nat>)
    ensures r.Some? ==> i <= r.value < |s|
    decreases |s| - i
  {
    if i >= |s| then None
    else if DigitAt(s, i, spelled).Some? then Some(i)
    else FirstDigitIndex(s, spelled, i + 1)
  }

  /** A digit starts at the index found and at none before it. */
  lemma {:induction false} FirstDigitIndexSpec(s: string, spelled: bool, i: nat)
    ensures var r := FirstDigitIndex(s, spelled, i);
      (r.Some? ==> DigitAt(s, r.value, spelled).Some? && forall k :: i <= k < r.value ==> DigitAt(s, k, spelled).None?) &&
      (r.None? ==> forall k :: i <= k < |s| ==> DigitAt(s, k, spelled).None?)
    decreases |s| - i
  {
    if i < |s| && DigitAt(s, i, spelled).None? {
      FirstDigitIndexSpec(s, spelled, i + 1);
    }
  }

  /** The last index below `n` where a digit ends. */
  function LastDigitIndex(s: string, spelled: bool, n: nat): (r: Option<nat>)
    requires n <= |s|
    ensures r.Some? ==> r.value < n
  {
    if n == 0 then None
    else if DigitEndingAt(s, n - 1, spelled).Some? then Some(n - 1)
    else LastDigitIndex(s, spelled, n - 1)
  }

  /** A digit ends at the index found and at none after it. */
  lemma {:induction false} LastDigitIndexSpec(s: string, spelled: bool, n: nat)
    requires n <= |s|
    ensures var r := LastDigitIndex(s, spelled, n);
      (r.Some? ==> DigitEndingAt(s, r.value, spelled).Some? && forall k :: r.value < k < n ==> DigitEndingAt(s, k, spelled).None?) &&
      (r.None? ==> forall k :: 0 <= k < n ==> DigitEndingAt(s, k, spelled).None?)
  {
    if n > 0 && DigitEndingAt(s, n - 1, spelled).None? {
      LastDigitIndexSpec(s, spelled, n - 1);
    }
  }

  /** What `get_first_digit` answers; `None` is its `Err`. */
  function FirstDigit(s: string, spelled: bool): (r: Option<nat>)
    ensures r.Some? ==> r.value < 10
  {
    match FirstDigitIndex(s, spelled, 0)
    case Some(k) => DigitAt(s, k, spelled)
    case None => None
  }

  /** What `get_last_digit` answers; `None` is its `Err`. */
  function LastDigit(s: string, spelled: bool): (r: Option<nat>)
    ensures r.Some? ==> r.value < 10
  {
    match LastDigitIndex(s, spelled, |s|)
    case Some(k) => DigitEndingAt(s, k, spelled)
    case None => None
  }

  /** `get_first_digit` fails exactly when no digit starts anywhere. */
  lemma FirstDigitFails(s: string, spelled: bool)
    ensures FirstDigit(s, spelled).None? <==> forall k :: 0 <= k < |s| ==> DigitAt(s, k, spelled).None?
  {
    FirstDigitIndexSpec(s, spelled, 0);
  }

  /** `get_last_digit` fails exactly when no digit ends anywhere. */
  lemma LastDigitFails(s: string, spelled: bool)
    ensures LastDigit(s, spelled).None? <==> forall k :: 0 <= k < |s| ==> DigitEndingAt(s, k, spelled).None?
  {
    LastDigitIndexSpec(s, spelled, |s|);
  }

  /** `get_first_digit`: the positions scanned from the left, an ASCII digit
      checked before the words. */
  method GetFirstDigit(s: string, spelled: bool) returns (r: Option<nat>)
    ensures r == FirstDigit(s, spelled)
  {
    for i := 0 to |s|
      invariant FirstDigitIndex(s, spelled, 0) == FirstDigitIndex(s, spelled, i)
    {
      if IsDigit(s[i]) {
        assert FirstDigitIndex(s, spelled, i) == Some(i);
        return Some(DigitValue(s[i]));
      }
      if !spelled {
        continue;
      }
      for j := 0 to 9
        invariant SpelledPrefix(s[i..]) == FirstHit(PrefixHits(s[i..]), j)
      {
        if Word(j) <= s[i..] {
          assert DigitAt(s, i, spelled) == Some(j + 1);
          assert FirstDigitIndex(s, spelled, i) == Some(i);
          return Some(j + 1);
        }
      }
      assert DigitAt(s, i, spelled).None?;
    }
    return None;
  }

  /** `get_last_digit`: the positions scanned from the right, each checked
      for an ASCII digit and then for a word ending there. */
  method GetLastDigit(s: string, spelled: bool) returns (r: Option<nat>)
    ensures r == LastDigit(s, spelled)
  {
    var n: nat := |s|;
    while n > 0
      invariant n <= |s|
      invariant LastDigitIndex(s, spelled, |s|) == LastDigitIndex(s, spelled, n)
    {
      var i := n - 1;
      if IsDigit(s[i]) {
        assert LastDigitIndex(s, spelled, n) == Some(i);
        return Some(DigitValue(s[i]));
      }
      if spelled {
        var p := s[..i + 1];
        for j := 0 to 9
          invariant SpelledSuffix(p) == FirstHit(SuffixHits(p), j)
        {
          if EndsWith(p, Word(j)) {
            assert SpelledSuffix(p) == Some(j + 1);
            assert LastDigitIndex(s, spelled, n) == Some(i);
            return Some(j + 1);
          }
        }
      }
      assert DigitEndingAt(s, i, spelled).None?;
      n := i;
    }
    return None;
  }

  /** Without spelled digits the last digit is the first digit of the line
      read backwards. */
  lemma LastDigitMirrorsFirst(s: string)
    ensures LastDigit(s, false) == FirstDigit(Reverse(s), false)
  {
    var t := Reverse(s);
    LastDigitIndexSpec(s, false, |s|);
    forall k | 0 <= k < |s|
      ensures DigitEndingAt(s, k, false) == DigitAt(t, |s| - 1 - k, false)
    {
      assert t[|s| - 1 - k] == s[k];
    }
    match LastDigitIndex(s, false, |s|)
    case None =>
      forall k | 0 <= k < |t| ensures DigitAt(t, k, false).None? {
        assert DigitEndingAt(s, |s| - 1 - k, false).None?;
      }
    case Some(v) =>
      var w := |s| - 1 - v;
      forall k | 0 <= k < w ensures DigitAt(t, k, false).None? {
        assert DigitEndingAt(s, |s| - 1 - k, false).None?;
      }
      FirstDigitIndexAt(t, false, w);
  }

  /** The first index is the one where a digit starts after none before. */
  lemma {:induction false} FirstDigitIndexAt(s: string, spelled: bool, w: nat)
    requires w < |s| && DigitAt(s, w, spelled).Some?
    requires forall k :: 0 <= k < w ==> DigitAt(s, k, spelled).None?
    ensures FirstDigitIndex(s, spelled, 0) == Some(w)
  {
    FirstDigitIndexFrom(s, spelled, w, 0);
  }

  lemma {:induction false} FirstDigitIndexFrom(s: string, spelled: bool, w: nat, i: nat)
    requires i <= w < |s| && DigitAt(s, w, spelled).Some?
    requires forall k :: i <= k < w ==> DigitAt(s, k, spelled).None?
    ensures FirstDigitIndex(s, spelled, i) == Some(w)
    decreases w - i
  {
    if i < w {
      FirstDigitIndexFrom(s, spelled, w, i + 1);
    }
  }

  /** The last index is the one where a digit ends after none later. */
  lemma {:induction false} LastDigitIndexAt(s: string, spelled: bool, w: nat, n: nat)
    requires w < n <= |s| && DigitEndingAt(s, w, spelled).Some?
    requires forall k :: w < k < n ==> DigitEndingAt(s, k, spelled).None?
    ensures LastDigitIndex(s, spelled, n) == Some(w)
    decreases n - w
  {
    if w < n - 1 {
      LastDigitIndexAt(s, spelled, w, n - 1);
    }
  }

  /** Counting spelled digits never finds the first digit later. */
  lemma SpelledFindsNoLater(s: string)
    requires FirstDigitIndex(s, false, 0).Some?
    ensures FirstDigitIndex(s, true, 0).Some?
    ensures FirstDigitIndex(s, true, 0).value <= FirstDigitIndex(s, false, 0).value
  {
    FirstDigitIndexSpec(s, false, 0);
    FirstDigitIndexSpec(s, true, 0);
    var v := FirstDigitIndex(s, false, 0).value;
    assert DigitAt(s, v, true).Some?;
  }

  /** `get_calibration_value`: the two digits written one after the other and
      parsed back, the tens from the first digit and the units from the last;
      a line without a digit panics. */
  function CalibrationValue(s: string, spelled: bool): (r: Option<nat>)
    ensures r.Some? <==> FirstDigit(s, spelled).Some? && LastDigit(s, spelled).Some?
    ensures r.Some? ==> r.value == 10 * FirstDigit(s, spelled).value + LastDigit(s, spelled).value
  {
    match (FirstDigit(s, spelled), LastDigit(s, spelled))
    case (Some(a), Some(b)) =>
      TwoDigits(a, b);
      ParseU32([DigitChar(a), DigitChar(b)])
    case _ => None
  }

  /** `get_calibration_value` as the source runs it: both digit searches,
      then the two digits parsed as one number. */
  method GetCalibrationValue(s: string, spelled: bool) returns (r: Option<nat>)
    ensures r == CalibrationValue(s, spelled)
  {
    var first := GetFirstDigit(s, spelled);
    var last := GetLastDigit(s, spelled);
    if first.None? || last.None? {
      return None;
    }
    TwoDigits(first.value, last.value);
    r := ParseU32([DigitChar(first.value), DigitChar(last.value)]);
  }

  /** The two-character number of two digits. */
  lemma TwoDigits(a: nat, b: nat)
    requires a < 10 && b < 10
    ensures ParseU32([DigitChar(a), DigitChar(b)]) == Some(10 * a + b)
  {
    var t := [DigitChar(a), DigitChar(b)];
    assert AllDigits(t);
    assert t[..1] == [DigitChar(a)] && t[..1][..0] == [];
    assert DecimalValue(t[..1]) == a;
    assert DecimalValue(t) == 10 * a + b;
  }

  /** The calibration value of every line, in order. */
  function Values(lines: seq<string>, spelled: bool): (values: seq<Option<nat>>)
    ensures |values| == |lines|
    ensures forall k :: 0 <= k < |lines| ==> values[k] == CalibrationValue(lines[k], spelled)
  {
    seq(|lines|, k requires 0 <= k < |lines| => CalibrationValue(lines[k], spelled))
  }

  /** The sum of the calibration values of the lines. */
  function TotalCalibration(lines: seq<string>, spelled: bool): Option<nat>
  {
    SumValues(Values(lines, spelled))
  }

  /** Values below 100 sum to at most 99 per value. */
  lemma {:induction false} SumValuesBound(values: seq<Option<nat>>)
    requires forall k :: 0 <= k < |values| && values[k].Some? ==> values[k].value < 100
    ensures SumValues(values).Some? ==> SumValues(values).value <= 99 * |values|
  {
    if values != [] {
      SumValuesBound(values[..|values| - 1]);
    }
  }

  /** Every calibration value has two decimal digits at most, so the total is
      at most 99 per line. */
  lemma TotalCalibrationBound(lines: seq<string>, spelled: bool)
    requires TotalCalibration(lines, spelled).Some?
    ensures TotalCalibration(lines, spelled).value <= 99 * |lines|
  {
    SumValuesBound(Values(lines, spelled));
  }

  /** `run`: the calibration values added up line by line, printed. */
  method Run(lines: seq<string>, spelled: bool) returns (r: Option<string>)
    ensures r.Some? <==> TotalCalibration(lines, spelled).Some?
    ensures r.Some? ==> r.value == ShowNat(TotalCalibration(lines, spelled).value)
  {
    ghost var values := Values(lines, spelled);
    var result := 0;
    for i := 0 to |lines|
      invariant SumValues(values[..i]) == Some(result)
    {
      var value := GetCalibrationValue(lines[i], spelled);
      assert value == values[i];
      if value.None? {
        SumValuesFails(values, i);
        return None;
      }
      SumValuesStep(values, i, result);
      result := result + value.value;
    }
    assert values[..|lines|] == values;
    return Some(ShowNat(result));
  }

  /** The first two letters of the words. */
  const Heads: set<(char, char)> := {('o', 'n'), ('t', 'w'), ('t', 'h'), ('f', 'o'), ('f', 'i'), ('s', 'i'), ('s', 'e'), ('e', 'i'), ('n', 'i')}

  /** The last two letters of the words. */
  const Tails: set<(char, char)> := {('n', 'e'), ('w', 'o'), ('e', 'e'), ('u', 'r'), ('v', 'e'), ('i', 'x'), ('e', 'n'), ('h', 't')}

  lemma HeadOfWord(k: nat)
    requires k < 9
    ensures var w := Word(k); (w[0], w[1]) in Heads && (w[|w| - 2], w[|w| - 1]) in Tails
  {
    match k
    case 0 =>
    case 1 =>
    case 2 =>
    case 3 =>
    case 4 =>
    case 5 =>
    case 6 =>
    case 7 =>
    case 8 =>
  }

  /** No word starts at index `i` when the two letters there start no word. */
  lemma NoWordStarts(s: string, i: nat)
    requires i + 1 < |s| && (s[i], s[i + 1]) !in Heads
    ensures SpelledPrefix(s[i..]).None?
  {
    forall k | 0 <= k < 9 ensures !(Word(k) <= s[i..]) {
      HeadOfWord(k);
      PrefixDiffers(Word(k), s[i..]);
    }
    SpelledPrefixSpec(s[i..]);
  }

  lemma PrefixDiffers(w: string, s: string)
    requires |w| >= 2 && |s| >= 2 && (w[0], w[1]) != (s[0], s[1])
    ensures !(w <= s)
  {
  }

  /** No word ends at index `i` when the two letters there end no word. */
  lemma NoWordEnds(s: string, i: nat)
    requires 1 <= i < |s| && (s[i - 1], s[i]) !in Tails
    ensures SpelledSuffix(s[..i + 1]).None?
  {
    var p := s[..i + 1];
    forall k | 0 <= k < 9 ensures !EndsWith(p, Word(k)) {
      HeadOfWord(k);
      SuffixDiffers(Word(k), p);
    }
    SpelledSuffixSpec(p);
  }

  lemma SuffixDiffers(w: string, p: string)
    requires |w| >= 2 && |p| >= 2 && (w[|w| - 2], w[|w| - 1]) != (p[|p| - 2], p[|p| - 1])
    ensures !EndsWith(p, w)
  {
    if |w| <= |p| {
      var tail := p[|p| - |w|..];
      assert tail[|w| - 2] == p[|p| - 2] && tail[|w| - 1] == p[|p| - 1];
    }
  }

  /** A text ends with a word when its last letters are the word's. */
  lemma EndsWithLetters(p: string, w: string)
    requires |w| <= |p| && forall k :: 0 <= k < |w| ==> p[|p| - |w| + k] == w[k]
    ensures EndsWith(p, w)
  {
    assert p[|p| - |w|..] == w;
  }

  lemma EndsWithThree(p: string)
    requires |p| >= 5
    requires p[|p| - 5] == 't' && p[|p| - 4] == 'h' && p[|p| - 3] == 'r' && p[|p| - 2] == 'e' && p[|p| - 1] == 'e'
    ensures EndsWith(p, Word(2))
  {
    var w := Word(2);
    assert |w| == 5 && w[0] == 't' && w[1] == 'h' && w[2] == 'r' && w[3] == 'e' && w[4] == 'e';
    forall k | 0 <= k < 5 ensures p[|p| - 5 + k] == w[k] {
      assert k == 0 || k == 1 || k == 2 || k == 3 || k == 4;
    }
    EndsWithLetters(p, w);
  }

  /** "three" ending at index `i` spells 3. */
  lemma ThreeEnds(s: string, i: nat)
    requires 4 <= i < |s|
    requires s[i - 4] == 't' && s[i - 3] == 'h' && s[i - 2] == 'r' && s[i - 1] == 'e' && s[i] == 'e'
    ensures DigitEndingAt(s, i, true) == Some(3)
  {
    var p := s[..i + 1];
    var hits := SuffixHits(p);
    assert p[|p| - 2] == 'e' && p[|p| - 1] == 'e';
    assert !hits[0] by {
      SuffixDiffers(Word(0), p);
    }
    assert !hits[1] by {
      SuffixDiffers(Word(1), p);
    }
    assert hits[2] by {
      assert p[|p| - 5] == 't' && p[|p| - 4] == 'h' && p[|p| - 3] == 'r';
      EndsWithThree(p);
    }
    FirstHitAt(hits, 0, 2);
  }

  /** The source's tests of the digit finders. */
  lemma FirstDigitExample()
    ensures FirstDigit("pqr3stu8vwx", false) == Some(3)
  {
    FirstDigitIndexAt("pqr3stu8vwx", false, 3);
  }

  lemma LastDigitExample()
    ensures LastDigit("pqr3stu8vwx", false) == Some(8)
  {
    LastDigitIndexAt("pqr3stu8vwx", false, 7, 11);
  }

  lemma FirstSpelledExample()
    ensures FirstDigit("zoneight234", true) == Some(1)
  {
    var s := "zoneight234";
    NoWordStarts(s, 0);
    assert Word(0) <= s[1..];
    FirstDigitIndexAt(s, true, 1);
  }

  lemma LastSpelledExample()
    ensures LastDigit("abcone2threexyz", true) == Some(3)
  {
    var s := "abcone2threexyz";
    assert s[7] == 't' && s[8] == 'h' && s[9] == 'r' && s[10] == 'e' && s[11] == 'e';
    assert s[12] == 'x' && s[13] == 'y' && s[14] == 'z';
    LastSpelledOf(s);
  }

  /** A line of 15 letters ending in "threexyz". */
  lemma LastSpelledOf(s: string)
    requires |s| == 15
    requires s[7] == 't' && s[8] == 'h' && s[9] == 'r' && s[10] == 'e' && s[11] == 'e'
    requires s[12] == 'x' && s[13] == 'y' && s[14] == 'z'
    ensures LastDigit(s, true) == Some(3)
  {
    LastSpelledFacts(s);
    forall k | 11 < k < |s| ensures DigitEndingAt(s, k, true).None? {
      assert k == 12 || k == 13 || k == 14;
    }
    LastDigitAt(s, true, 11);
  }

  lemma LastSpelledFacts(s: string)
    requires |s| == 15
    requires s[7] == 't' && s[8] == 'h' && s[9] == 'r' && s[10] == 'e' && s[11] == 'e'
    requires s[12] == 'x' && s[13] == 'y' && s[14] == 'z'
    ensures DigitEndingAt(s, 11, true) == Some(3) && DigitEndingAt(s, 12, true).None?
    ensures DigitEndingAt(s, 13, true).None? && DigitEndingAt(s, 14, true).None?
  {
    assert (s[13], s[14]) !in Tails && (s[12], s[13]) !in Tails && (s[11], s[12]) !in Tails;
    NoneEndsAt(s, 14);
    NoneEndsAt(s, 13);
    NoneEndsAt(s, 12);
    ThreeEnds(s, 11);
  }

  /** The last digit is the one ending where none ends later. */
  lemma LastDigitAt(s: string, spelled: bool, w: nat)
    requires w < |s| && DigitEndingAt(s, w, spelled).Some?
    requires forall k :: w < k < |s| ==> DigitEndingAt(s, k, spelled).None?
    ensures LastDigit(s, spelled) == DigitEndingAt(s, w, spelled)
  {
    LastDigitIndexAt(s, spelled, w, |s|);
  }

  /** The first digit is the one starting where none starts earlier. */
  lemma FirstDigitAt(s: string, spelled: bool, w: nat)
    requires w < |s| && DigitAt(s, w, spelled).Some?
    requires forall k :: 0 <= k < w ==> DigitAt(s, k, spelled).None?
    ensures FirstDigit(s, spelled) == DigitAt(s, w, spelled)
  {
    FirstDigitIndexAt(s, spelled, w);
  }

  /** Neither a digit nor a word ends at index `i`. */
  lemma NoneEndsAt(s: string, i: nat)
    requires 1 <= i < |s| && !IsDigit(s[i]) && (s[i - 1], s[i]) !in Tails
    ensures DigitEndingAt(s, i, true).None?
  {
    NoWordEnds(s, i);
  }

  /** Neither a digit nor a word starts at index `i`. */
  lemma NoneStartsAt(s: string, i: nat)
    requires i + 1 < |s| && !IsDigit(s[i]) && (s[i], s[i + 1]) !in Heads
    ensures DigitAt(s, i, true).None?
  {
    NoWordStarts(s, i);
  }

  /** The source's tests of the calibration value, spelled digits counting:
      38 for a line of plain digits, 14 where a spelled one comes first. */
  lemma CalibrationExample()
    ensures CalibrationValue("pqr3stu8vwx", true) == Some(38)
  {
    var s := "pqr3stu8vwx";
    assert s[0] == 'p' && s[1] == 'q' && s[2] == 'r' && s[3] == '3';
    assert s[7] == '8' && s[8] == 'v' && s[9] == 'w' && s[10] == 'x';
    PlainCalibrationOf(s);
  }

  /** A line of 11 letters "pqr3", three letters, then "8vwx". */
  lemma PlainCalibrationOf(s: string)
    requires |s| == 11
    requires s[0] == 'p' && s[1] == 'q' && s[2] == 'r' && s[3] == '3'
    requires s[7] == '8' && s[8] == 'v' && s[9] == 'w' && s[10] == 'x'
    ensures CalibrationValue(s, true) == Some(38)
  {
    PlainStarts(s);
    forall k | 0 <= k < 3 ensures DigitAt(s, k, true).None? {
      assert k == 0 || k == 1 || k == 2;
    }
    DigitHere(s, 3);
    FirstDigitAt(s, true, 3);
    PlainEnds(s);
    DigitHere(s, 7);
    forall k | 7 < k < |s| ensures DigitEndingAt(s, k, true).None? {
      assert k == 8 || k == 9 || k == 10;
    }
    LastDigitAt(s, true, 7);
  }

  /** An ASCII digit both starts and ends a digit where it stands. */
  lemma DigitHere(s: string, i: nat)
    requires i < |s| && IsDigit(s[i])
    ensures DigitAt(s, i, true) == DigitEndingAt(s, i, true) == Some(DigitValue(s[i]))
  {
  }

  lemma PlainStarts(s: string)
    requires |s| == 11
    requires s[0] == 'p' && s[1] == 'q' && s[2] == 'r' && s[3] == '3'
    ensures DigitAt(s, 0, true).None? && DigitAt(s, 1, true).None? && DigitAt(s, 2, true).None?
  {
    assert (s[0], s[1]) !in Heads && (s[1], s[2]) !in Heads && (s[2], s[3]) !in Heads;
    NoneStartsAt(s, 0);
    NoneStartsAt(s, 1);
    NoneStartsAt(s, 2);
  }

  lemma PlainEnds(s: string)
    requires |s| == 11
    requires s[7] == '8' && s[8] == 'v' && s[9] == 'w' && s[10] == 'x'
    ensures DigitEndingAt(s, 8, true).None? && DigitEndingAt(s, 9, true).None? && DigitEndingAt(s, 10, true).None?
  {
    assert (s[9], s[10]) !in Tails && (s[8], s[9]) !in Tails && (s[7], s[8]) !in Tails;
    NoneEndsAt(s, 10);
    NoneEndsAt(s, 9);
    NoneEndsAt(s, 8);
  }

  lemma SpelledCalibrationExample()
    ensures CalibrationValue("zoneight234", true) == Some(14)
  {
    FirstSpelledExample();
    LastDigitIndexAt("zoneight234", true, 10, 11);
  }
}
