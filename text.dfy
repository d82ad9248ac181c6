/** Text helpers shared by the puzzle models: an Option type for the source's
    `unwrap` failures, ASCII digits, decimal numbers, and the string splitting
    and trimming that the solvers use to take their input apart. */
module Text {

  /** The source's `Option`; `None` also stands for a panic on `unwrap`. */
  datatype Option<T> = None | Some(value: T)

  predicate IsDigit(c: char) { '0' <= c <= '9' }

  /** ASCII whitespace as `split_whitespace`, `trim` and Python's `split()` see it. */
  predicate IsSpace(c: char) { c == ' ' || c == '\t' || c == '\n' || c == '\r' }

  function DigitValue(c: char): (d: nat)
    requires IsDigit(c)
    ensures d < 10
  {
    c as int - '0' as int
  }

  function DigitChar(d: nat): (c: char)
    requires d < 10
    ensures IsDigit(c) && DigitValue(c) == d
  {
    (d + '0' as int) as char
  }

  predicate AllDigits(s: string) { forall i :: 0 <= i < |s| ==> IsDigit(s[i]) }

  /** The big-endian base-10 value of a string of digits. */
  function DecimalValue(s: string): nat
    requires AllDigits(s)
  {
    if s == [] then 0 else 10 * DecimalValue(s[..|s| - 1]) + DigitValue(s[|s| - 1])
  }

  /** `str::parse::<u32>()` / `int(...)` on a plain run of digits; anything else fails. */
  function ParseNat(s: string): (r: Option<nat>)
    ensures r.Some? <==> s != [] && AllDigits(s)
  {
    if s != [] && AllDigits(s) then Some(DecimalValue(s)) else None
  }

  /** `str::parse::<i32>()`: an optional sign followed by digits. */
  function ParseInt(s: string): (r: Option<int>)
    ensures s != [] && AllDigits(s) ==> r == Some(DecimalValue(s) as int)
    ensures |s| > 1 && s[0] == '-' && AllDigits(s[1..]) ==> r == Some(-(DecimalValue(s[1..]) as int))
  {
    if s != [] && (s[0] == '-' || s[0] == '+') then
      match ParseNat(s[1..])
      case Some(n) => Some(if s[0] == '-' then -(n as int) else n as int)
      case None => None
    else
      match ParseNat(s)
      case Some(n) => Some(n as int)
      case None => None
  }

  /** The largest `u32`. */
  const U32_MAX: nat := 0xFFFF_FFFF

  /** `parse::<u32>()`: the decimal value, which must fit in 32 bits. */
  function ParseU32(s: string): (r: Option<nat>)
    ensures r.Some? <==> ParseNat(s).Some? && ParseNat(s).value <= U32_MAX
    ensures r.Some? ==> r.value == ParseNat(s).value
  {
    match ParseNat(s)
    case None => None
    case Some(n) => if n <= U32_MAX then Some(n) else None
  }

  const U64_MAX: nat := 0xFFFF_FFFF_FFFF_FFFF

  /** `parse::<u64>()`: the decimal value, which must fit in 64 bits. */
  function ParseU64(s: string): (r: Option<nat>)
    ensures r.Some? <==> ParseNat(s).Some? && ParseNat(s).value <= U64_MAX
    ensures r.Some? ==> r.value == ParseNat(s).value
  {
    match ParseNat(s)
    case None => None
    case Some(n) => if n <= U64_MAX then Some(n) else None
  }

  /** The range of an `i32`. */
  const I32_MIN: int := -0x8000_0000
  const I32_MAX: int := 0x7FFF_FFFF

  /** `parse::<i32>()`: the signed decimal value, which must fit in 32 bits. */
  function ParseI32(s: string): (r: Option<int>)
    ensures r.Some? <==> ParseInt(s).Some? && I32_MIN <= ParseInt(s).value <= I32_MAX
    ensures r.Some? ==> r.value == ParseInt(s).value
  {
    match ParseInt(s)
    case None => None
    case Some(v) => if I32_MIN <= v <= I32_MAX then Some(v) else None
  }

  /** Every part parsed with `parse::<u32>()`; one failure fails them all. */
  function ParseU32s(parts: seq<string>): (r: Option<seq<nat>>)
    ensures r.Some? ==> |r.value| == |parts|
    ensures r.Some? ==> forall k :: 0 <= k < |parts| ==> ParseU32(parts[k]) == Some(r.value[k])
    ensures (forall k :: 0 <= k < |parts| ==> ParseU32(parts[k]).Some?) ==> r.Some?
  {
    if parts == [] then Some([])
    else
      match ParseU32(parts[0])
      case None => None
      case Some(n) =>
        match ParseU32s(parts[1..])
        case None => None
        case Some(ns) => Some([n] + ns)
  }

  /** `to_string()` of a natural number. */
  function ShowNat(n: nat): (s: string)
    ensures s != [] && AllDigits(s)
  {
    if n < 10 then [DigitChar(n)] else ShowNat(n / 10) + [DigitChar(n % 10)]
  }

  lemma {:induction false} DecimalValueShowNat(n: nat)
    ensures DecimalValue(ShowNat(n)) == n
  {
    if n >= 10 {
      var s := ShowNat(n);
      assert s[..|s| - 1] == ShowNat(n / 10);
      DecimalValueShowNat(n / 10);
    }
  }

  /** Printing a number and parsing it back gives the number. */
  lemma ParseShowNat(n: nat)
    ensures ParseNat(ShowNat(n)) == Some(n)
  {
    DecimalValueShowNat(n);
  }

  /** A printed number that fits in 32 bits parses back as a `u32`. */
  lemma ParseShowU32(n: nat)
    requires n <= U32_MAX
    ensures ParseU32(ShowNat(n)) == Some(n)
  {
    ParseShowNat(n);
  }

  /** A printed number that fits in 64 bits parses back as a `u64`. */
  lemma ParseShowU64(n: nat)
    requires n <= U64_MAX
    ensures ParseU64(ShowNat(n)) == Some(n)
  {
    ParseShowNat(n);
  }

  /** A printed number holds neither spaces nor line breaks. */
  lemma ShowNatHasNoBreak(n: nat)
    ensures ' ' !in ShowNat(n) && '\n' !in ShowNat(n)
  {
    var s := ShowNat(n);
    assert forall k :: 0 <= k < |s| ==> IsDigit(s[k]);
  }

  /** What follows `prefix` in `s`, when `s` starts with it. */
  function AfterPrefix(s: string, prefix: string): (r: Option<string>)
    ensures r.Some? <==> prefix <= s
    ensures r.Some? ==> s == prefix + r.value
  {
    if prefix <= s then Some(s[|prefix|..]) else None
  }

  lemma AfterPrefixConcat(prefix: string, rest: string)
    ensures AfterPrefix(prefix + rest, prefix) == Some(rest)
  {
    assert prefix <= prefix + rest;
    assert (prefix + rest)[|prefix|..] == rest;
  }

  /** `str::ends_with(w)`. */
  predicate EndsWith(s: string, w: string)
  {
    |w| <= |s| && s[|s| - |w|..] == w
  }

  /** `str::contains(w)`: `w` occurs somewhere in `s`. */
  predicate Contains(s: string, w: string)
    decreases |s|
  {
    w <= s || (s != [] && Contains(s[1..], w))
  }

  /** Index of the first occurrence of `c` in `s`. */
  function IndexOf(s: string, c: char): (i: nat)
    requires c in s
    ensures i < |s| && s[i] == c && c !in s[..i]
  {
    if s[0] == c then 0 else 1 + IndexOf(s[1..], c)
  }

  /** `str::split(sep)` / Python's `str.split(sep)`: always at least one part. */
  function Split(s: string, sep: char): (parts: seq<string>)
    ensures |parts| >= 1
    ensures forall i :: 0 <= i < |parts| ==> sep !in parts[i]
    decreases |s|
  {
    if sep !in s then [s]
    else
      var i := IndexOf(s, sep);
      [s[..i]] + Split(s[i + 1..], sep)
  }

  /** Unfolds `Split` at the first separator, found at index `i`. */
  lemma SplitAt(s: string, sep: char, i: nat)
    requires i < |s| && s[i] == sep && sep !in s[..i]
    ensures Split(s, sep) == [s[..i]] + Split(s[i + 1..], sep)
  {
    assert IndexOf(s, sep) == i;
  }

  /** The inverse of `Split`: the parts joined with the separator. */
  function Join(parts: seq<string>, sep: char): string
    requires |parts| >= 1
  {
    if |parts| == 1 then parts[0] else parts[0] + [sep] + Join(parts[1..], sep)
  }

  lemma {:induction false} JoinSplit(s: string, sep: char)
    ensures Join(Split(s, sep), sep) == s
    decreases |s|
  {
    if sep in s {
      var i := IndexOf(s, sep);
      var tail := Split(s[i + 1..], sep);
      var parts := Split(s, sep);
      assert parts == [s[..i]] + tail;
      assert parts[0] == s[..i] && parts[1..] == tail;
      assert Join(parts, sep) == s[..i] + [sep] + Join(tail, sep);
      JoinSplit(s[i + 1..], sep);
      assert s == s[..i] + [sep] + s[i + 1..];
    }
  }

  /** Joining parts that do not contain the separator and splitting again gives
      the parts back. */
  lemma {:induction false} SplitJoin(parts: seq<string>, sep: char)
    requires |parts| >= 1
    requires forall i :: 0 <= i < |parts| ==> sep !in parts[i]
    ensures Split(Join(parts, sep), sep) == parts
  {
    if |parts| > 1 {
      var first, rest := parts[0], Join(parts[1..], sep);
      var s := first + [sep] + rest;
      assert Join(parts, sep) == s;
      assert s[..|first|] == first && s[|first|] == sep;
      assert sep !in first;
      SplitAt(s, sep, |first|);
      assert s[|first| + 1..] == rest;
      SplitJoin(parts[1..], sep);
      assert parts == [first] + parts[1..];
    }
  }

  /** A character that is neither the separator nor in any part is not in
      the parts joined. */
  lemma {:induction false} JoinWithout(parts: seq<string>, sep: char, c: char)
    requires |parts| >= 1 && c != sep
    requires forall i :: 0 <= i < |parts| ==> c !in parts[i]
    ensures c !in Join(parts, sep)
  {
    if |parts| > 1 {
      JoinWithout(parts[1..], sep, c);
    }
  }

  /** Splitting a string without the separator gives the string back. */
  lemma SplitWithoutSeparator(s: string, sep: char)
    requires sep !in s
    ensures Split(s, sep) == [s]
  {
  }

  /** The string with every `c` removed (`str::replace(c, "")`). */
  function Remove(s: string, c: char): (r: string)
    ensures c !in r && |r| <= |s|
  {
    if s == [] then [] else (if s[0] == c then [] else [s[0]]) + Remove(s[1..], c)
  }

  lemma {:induction false} RemoveConcat(a: string, b: string, c: char)
    ensures Remove(a + b, c) == Remove(a, c) + Remove(b, c)
  {
    if a != [] {
      assert (a + b)[1..] == a[1..] + b;
      RemoveConcat(a[1..], b, c);
    } else {
      assert a + b == b;
    }
  }

  lemma {:induction false} RemoveAbsent(s: string, c: char)
    requires c !in s
    ensures Remove(s, c) == s
  {
    if s != [] {
      RemoveAbsent(s[1..], c);
    }
  }

  function TrimStart(s: string): (r: string)
    ensures r == [] || !IsSpace(r[0])
    ensures r <= s || (|r| <= |s| && r == s[|s| - |r|..])
  {
    if s != [] && IsSpace(s[0]) then TrimStart(s[1..]) else s
  }

  function TrimEnd(s: string): (r: string)
    ensures r == [] || !IsSpace(r[|r| - 1])
    ensures r <= s
  {
    if s != [] && IsSpace(s[|s| - 1]) then TrimEnd(s[..|s| - 1]) else s
  }

  /** `str::trim()`: leading and trailing whitespace removed. */
  function Trim(s: string): (r: string)
    ensures r == [] || (!IsSpace(r[0]) && !IsSpace(r[|r| - 1]))
  {
    TrimEnd(TrimStart(s))
  }

  predicate AllSpace(s: string) { forall k :: 0 <= k < |s| ==> IsSpace(s[k]) }

  /** `trim` cuts off exactly the leading and the trailing whitespace: what is
      left is the slice between the two runs of whitespace around it. */
  lemma TrimCuts(s: string) returns (i: nat, j: nat)
    ensures i <= j <= |s| && Trim(s) == s[i..j]
    ensures AllSpace(s[..i]) && AllSpace(s[j..])
  {
    i := TrimStartCuts(s);
    var k := TrimEndCuts(s[i..]);
    j := i + k;
    assert s[i..][..k] == s[i..j];
    assert s[i..][k..] == s[j..];
  }

  lemma {:induction false} TrimStartCuts(s: string) returns (i: nat)
    ensures i <= |s| && TrimStart(s) == s[i..] && AllSpace(s[..i])
  {
    if s != [] && IsSpace(s[0]) {
      var k := TrimStartCuts(s[1..]);
      i := k + 1;
      assert s[1..][k..] == s[i..];
      assert forall m :: 1 <= m < i ==> s[m] == s[1..][..k][m - 1];
    } else {
      i := 0;
    }
  }

  lemma {:induction false} TrimEndCuts(s: string) returns (j: nat)
    ensures j <= |s| && TrimEnd(s) == s[..j] && AllSpace(s[j..])
  {
    if s != [] && IsSpace(s[|s| - 1]) {
      j := TrimEndCuts(s[..|s| - 1]);
      assert s[..|s| - 1][..j] == s[..j];
      assert forall m :: j <= m < |s| - 1 ==> s[m] == s[..|s| - 1][j..][m - j];
    } else {
      j := |s|;
    }
  }

  /** Every `'_'` stands between two digits, as Python's `int` demands of the
      underscores it accepts. */
  predicate DigitGrouped(s: string)
  {
    forall i :: 0 <= i < |s| && s[i] == '_' ==> BetweenDigits(s, i)
  }

  predicate BetweenDigits(s: string, i: int)
  {
    0 < i < |s| - 1 && IsDigit(s[i - 1]) && IsDigit(s[i + 1])
  }

  /** Python's `int(s)` on a string: surrounding whitespace is ignored, a sign
      may lead, and single underscores may group the digits; anything else
      raises, which is `None`. */
  function PyInt(s: string): (r: Option<int>)
    ensures r.Some? ==> r == ParseInt(Remove(Trim(s), '_'))
    ensures s != [] && AllDigits(s) ==> r == Some(DecimalValue(s))
  {
    PlainDigits(s);
    var t := Trim(s);
    if DigitGrouped(t) then ParseInt(Remove(t, '_')) else None
  }

  /** Python's `int` reads back what `str` writes of a natural number. */
  lemma PyIntShowNat(n: nat)
    ensures PyInt(ShowNat(n)) == Some(n)
  {
    DecimalValueShowNat(n);
  }

  /** A written natural number holds no character but digits. */
  lemma ShowNatOnlyDigits(n: nat, c: char)
    requires !IsDigit(c)
    ensures c !in ShowNat(n)
  {
    var s := ShowNat(n);
    assert forall k :: 0 <= k < |s| ==> IsDigit(s[k]);
  }

  /** A plain run of digits is its own trimmed, underscore-free form. */
  lemma PlainDigits(s: string)
    ensures s != [] && AllDigits(s) ==> Trim(s) == s && DigitGrouped(s) && Remove(s, '_') == s
  {
    if s != [] && AllDigits(s) {
      assert !IsSpace(s[0]) && !IsSpace(s[|s| - 1]);
      DigitsHaveNoUnderscore(s);
      RemoveAbsent(s, '_');
    }
  }

  /** Whitespace around a number does not change what `int` reads. */
  lemma PyIntPadded(pre: string, s: string, post: string)
    requires forall i :: 0 <= i < |pre| ==> IsSpace(pre[i])
    requires forall i :: 0 <= i < |post| ==> IsSpace(post[i])
    requires s != [] && !IsSpace(s[0]) && !IsSpace(s[|s| - 1])
    ensures PyInt(pre + s + post) == PyInt(s)
  {
    assert Trim(pre + s + post) == s by {
      TrimStartSpaces(pre, s + post);
      TrimEndSpaces(s, post);
      assert pre + s + post == pre + (s + post);
    }
    assert Trim(s) == s by {
      assert TrimStart(s) == s;
    }
    PyIntOfTrim(pre + s + post, s);
  }

  /** `int` looks only at the trimmed text. */
  lemma PyIntOfTrim(a: string, b: string)
    requires Trim(a) == Trim(b)
    ensures PyInt(a) == PyInt(b)
  {
  }

  lemma {:induction false} TrimStartSpaces(pre: string, s: string)
    requires forall i :: 0 <= i < |pre| ==> IsSpace(pre[i])
    requires s != [] && !IsSpace(s[0])
    ensures TrimStart(pre + s) == s
  {
    if pre != [] {
      assert (pre + s)[1..] == pre[1..] + s;
      TrimStartSpaces(pre[1..], s);
    }
  }

  lemma {:induction false} TrimEndSpaces(s: string, post: string)
    requires forall i :: 0 <= i < |post| ==> IsSpace(post[i])
    requires s != [] && !IsSpace(s[|s| - 1])
    ensures TrimEnd(s + post) == s
  {
    if post != [] {
      assert (s + post)[..|s + post| - 1] == s + post[..|post| - 1];
      TrimEndSpaces(s, post[..|post| - 1]);
    }
  }

  /** Digits grouped by one underscore read as the digits without it. */
  lemma PyIntGrouped(a: string, b: string)
    requires a != [] && AllDigits(a) && b != [] && AllDigits(b)
    ensures PyInt(a + "_" + b) == Some(DecimalValue(a + b))
  {
    var s := a + "_" + b;
    assert s[0] == a[0] && s[|s| - 1] == b[|b| - 1];
    assert Trim(s) == s;
    GroupedDigitGrouped(a, b);
    RemoveGroup(a, b);
    assert AllDigits(a + b) by {
      assert forall i :: 0 <= i < |a + b| ==> (a + b)[i] == (if i < |a| then a[i] else b[i - |a|]);
    }
  }

  lemma GroupedDigitGrouped(a: string, b: string)
    requires a != [] && AllDigits(a) && b != [] && AllDigits(b)
    ensures DigitGrouped(a + "_" + b)
  {
    var s := a + "_" + b;
    assert forall i :: 0 <= i < |a| ==> s[i] == a[i];
    assert forall i :: |a| < i < |s| ==> s[i] == b[i - |a| - 1];
    assert BetweenDigits(s, |a|) by {
      assert s[|a| - 1] == a[|a| - 1] && s[|a| + 1] == b[0];
    }
  }

  lemma DigitsHaveNoUnderscore(a: string)
    requires AllDigits(a)
    ensures '_' !in a
  {
    assert forall i :: 0 <= i < |a| ==> a[i] != '_';
  }

  lemma RemoveGroup(a: string, b: string)
    requires AllDigits(a) && AllDigits(b)
    ensures Remove(a + "_" + b, '_') == a + b
  {
    var u := "_";
    DigitsHaveNoUnderscore(a);
    DigitsHaveNoUnderscore(b);
    calc {
      Remove(a + u + b, '_');
      { RemoveConcat(a + u, b, '_'); }
      Remove(a + u, '_') + Remove(b, '_');
      { RemoveConcat(a, u, '_'); }
      Remove(a, '_') + Remove(u, '_') + Remove(b, '_');
      { RemoveAbsent(a, '_'); RemoveAbsent(b, '_'); RemoveUnderscore(); }
      a + [] + b;
    }
    assert a + [] + b == a + b;
  }

  lemma RemoveUnderscore()
    ensures Remove("_", '_') == []
  {
    assert "_"[1..] == [];
  }

  /** The parts that are not empty, in order. */
  function NonEmpty(parts: seq<string>): (r: seq<string>)
    ensures forall i :: 0 <= i < |r| ==> r[i] != []
    ensures |r| <= |parts|
  {
    if parts == [] then []
    else (if parts[0] == [] then [] else [parts[0]]) + NonEmpty(parts[1..])
  }

  /** `split_whitespace()` / Python's `str.split()`: the maximal runs of
      non-whitespace characters, in order. */
  function Words(s: string): (r: seq<string>)
    ensures forall i :: 0 <= i < |r| ==> r[i] != [] && forall k :: 0 <= k < |r[i]| ==> !IsSpace(r[i][k])
    decreases |s|
  {
    if s == [] then []
    else if IsSpace(s[0]) then Words(s[1..])
    else
      var n := WordLength(s);
      [s[..n]] + Words(s[n..])
  }

  /** Length of the run of non-whitespace characters that starts `s`. */
  function WordLength(s: string): (n: nat)
    ensures n <= |s|
    ensures forall k :: 0 <= k < n ==> !IsSpace(s[k])
    ensures n < |s| ==> IsSpace(s[n])
  {
    if s == [] || IsSpace(s[0]) then 0 else 1 + WordLength(s[1..])
  }

  /** The run of non-whitespace characters that starts a word followed by
      a space, or by nothing, is the word. */
  lemma {:induction false} WordLengthOf(w: string, rest: string)
    requires forall k :: 0 <= k < |w| ==> !IsSpace(w[k])
    requires rest == [] || IsSpace(rest[0])
    ensures WordLength(w + rest) == |w|
  {
    if w != [] {
      assert (w + rest)[1..] == w[1..] + rest;
      WordLengthOf(w[1..], rest);
    } else {
      assert w + rest == rest;
    }
  }

  /** The words of a word followed by whitespace and more text: that word,
      then the words of the rest. */
  lemma WordsCons(w: string, rest: string)
    requires w != [] && forall k :: 0 <= k < |w| ==> !IsSpace(w[k])
    requires rest == [] || IsSpace(rest[0])
    ensures Words(w + rest) == [w] + Words(rest)
  {
    WordLengthOf(w, rest);
    var s := w + rest;
    assert s[..|w|] == w && s[|w|..] == rest;
  }

  /** A non-empty run of characters that are not whitespace. */
  predicate IsWord(w: string)
  {
    w != [] && forall k :: 0 <= k < |w| ==> !IsSpace(w[k])
  }

  /** Words joined by single spaces split back into those words. */
  lemma {:induction false} WordsJoin(words: seq<string>)
    requires |words| >= 1
    requires forall i :: 0 <= i < |words| ==> IsWord(words[i])
    ensures Words(Join(words, ' ')) == words
  {
    if |words| == 1 {
      WordsCons(words[0], []);
      assert words[0] + [] == words[0];
    } else {
      var rest := Join(words[1..], ' ');
      assert Join(words, ' ') == words[0] + ([' '] + rest);
      WordsCons(words[0], [' '] + rest);
      assert ([' '] + rest)[1..] == rest;
      WordsJoin(words[1..]);
      assert words == [words[0]] + words[1..];
    }
  }

  /** The index of the first character from `i` on that is not a digit;
      `|text|` when there is none. */
  function RunEnd(text: string, i: nat): (j: nat)
    requires i <= |text|
    ensures i <= j <= |text|
    ensures forall k :: i <= k < j ==> IsDigit(text[k])
    ensures j < |text| ==> !IsDigit(text[j])
    decreases |text| - i
  {
    if i == |text| || !IsDigit(text[i]) then i else RunEnd(text, i + 1)
  }

  /** Every part parsed with `parse::<u64>()`; one failure fails them all. */
  function ParseU64s(parts: seq<string>): (r: Option<seq<nat>>)
    ensures r.Some? ==> |r.value| == |parts|
    ensures r.Some? ==> forall i :: 0 <= i < |parts| ==> ParseU64(parts[i]) == Some(r.value[i])
    ensures r.None? ==> exists i :: 0 <= i < |parts| && ParseU64(parts[i]).None?
  {
    if parts == [] then Some([])
    else
      match ParseU64(parts[0])
      case None => None
      case Some(n) =>
        match ParseU64s(parts[1..])
        case None => None
        case Some(ns) => Some([n] + ns)
  }

  /** The sum of some values, `None` when one of them is missing. */
  function SumValues(values: seq<Option<nat>>): Option<nat>
  {
    if values == [] then Some(0)
    else
      var last := |values| - 1;
      match (SumValues(values[..last]), values[last])
      case (Some(total), Some(value)) => Some(total + value)
      case _ => None
  }

  /** One more value added to a sum of the values before it. */
  lemma SumValuesStep(values: seq<Option<nat>>, i: nat, total: nat)
    requires i < |values| && SumValues(values[..i]) == Some(total) && values[i].Some?
    ensures SumValues(values[..i + 1]) == Some(total + values[i].value)
  {
    assert values[..i + 1][..i] == values[..i];
  }

  /** A missing value stops the whole sum. */
  lemma {:induction false} SumValuesFails(values: seq<Option<nat>>, i: nat)
    requires i < |values| && values[i].None?
    ensures SumValues(values).None?
    decreases |values|
  {
    var last := |values| - 1;
    if i < last {
      assert values[..last][i] == values[i];
      SumValuesFails(values[..last], i);
    }
  }

  /** The sum of two runs of values, one after the other. */
  lemma {:induction false} SumValuesConcat(a: seq<Option<nat>>, b: seq<Option<nat>>)
    ensures SumValues(a + b) ==
      if SumValues(a).Some? && SumValues(b).Some? then Some(SumValues(a).value + SumValues(b).value) else None
    decreases |b|
  {
    if b == [] {
      assert a + b == a;
    } else {
      var last := |b| - 1;
      assert (a + b)[..|a + b| - 1] == a + b[..last];
      assert (a + b)[|a + b| - 1] == b[last];
      SumValuesConcat(a, b[..last]);
    }
  }

  /** `f` applied to every element, in order. */
  function Map<A, B>(f: A -> B, s: seq<A>): (r: seq<B>)
    ensures |r| == |s|
  {
    seq(|s|, k requires 0 <= k < |s| => f(s[k]))
  }

  /** The element of a mapped sequence at index `k`. */
  lemma MapAt<A, B>(f: A -> B, s: seq<A>, k: nat)
    requires k < |s|
    ensures Map(f, s)[k] == f(s[k])
  {
  }

  /** Mapping two sequences one after the other maps each of them. */
  lemma MapConcat<A, B>(f: A -> B, a: seq<A>, b: seq<A>)
    ensures Map(f, a + b) == Map(f, a) + Map(f, b)
  {
    var r := Map(f, a + b);
    forall k | 0 <= k < |a + b| ensures r[k] == (Map(f, a) + Map(f, b))[k] {
      if k < |a| {
        assert (a + b)[k] == a[k];
      } else {
        assert (a + b)[k] == b[k - |a|];
      }
    }
  }

  /** Every piece read with `parse`, in order; one failure fails them all. */
  function ParseAll<T>(parse: string -> Option<T>, pieces: seq<string>): (r: Option<seq<T>>)
    ensures r.Some? ==> |r.value| == |pieces|
  {
    if pieces == [] then Some([])
    else
      var last := |pieces| - 1;
      match (ParseAll(parse, pieces[..last]), parse(pieces[last]))
      case (Some(values), Some(value)) => Some(values + [value])
      case _ => None
  }

  /** What `ParseAll` gives is each piece read with `parse`; and it fails
      exactly when one of the pieces cannot be read. */
  lemma {:induction false} ParseAllSpec<T>(parse: string -> Option<T>, pieces: seq<string>)
    ensures ParseAll(parse, pieces).Some? <==> forall k :: 0 <= k < |pieces| ==> parse(pieces[k]).Some?
    ensures ParseAll(parse, pieces).Some? ==>
      forall k :: 0 <= k < |pieces| ==> parse(pieces[k]) == Some(ParseAll(parse, pieces).value[k])
  {
    if pieces != [] {
      var last := |pieces| - 1;
      ParseAllSpec(parse, pieces[..last]);
      assert forall k :: 0 <= k < last ==> pieces[..last][k] == pieces[k];
    }
  }

  /** One more piece read. */
  lemma ParseAllStep<T>(parse: string -> Option<T>, pieces: seq<string>, i: nat)
    requires i < |pieces|
    ensures ParseAll(parse, pieces[..i + 1]) ==
      if ParseAll(parse, pieces[..i]).Some? && parse(pieces[i]).Some?
      then Some(ParseAll(parse, pieces[..i]).value + [parse(pieces[i]).value])
      else None
  {
    assert pieces[..i + 1][..i] == pieces[..i];
  }

  /** A failure among the first `n` pieces fails them all. */
  lemma {:induction false} ParseAllFails<T>(parse: string -> Option<T>, pieces: seq<string>, n: nat)
    requires n <= |pieces| && ParseAll(parse, pieces[..n]).None?
    ensures ParseAll(parse, pieces).None?
  {
    if n < |pieces| {
      var last := |pieces| - 1;
      assert pieces[..last][..n] == pieces[..n];
      ParseAllFails(parse, pieces[..last], n);
    } else {
      assert pieces[..n] == pieces;
    }
  }

  /** The values `f` gives the items, added up in order; `None` as soon as
      one of them is missing. */
  function SumOver<T>(f: T -> Option<nat>, items: seq<T>): Option<nat>
  {
    if items == [] then Some(0)
    else
      var last := |items| - 1;
      match (SumOver(f, items[..last]), f(items[last]))
      case (Some(total), Some(value)) => Some(total + value)
      case _ => None
  }

  /** One more item added to the sum over the items before it. */
  lemma SumOverStep<T>(f: T -> Option<nat>, items: seq<T>, i: nat)
    requires i < |items| && SumOver(f, items[..i]).Some? && f(items[i]).Some?
    ensures SumOver(f, items[..i + 1]) == Some(SumOver(f, items[..i]).value + f(items[i]).value)
  {
    assert items[..i + 1][..i] == items[..i];
  }

  /** An item without a value makes the whole sum missing. */
  lemma {:induction false} SumOverFails<T>(f: T -> Option<nat>, items: seq<T>, i: nat)
    requires i < |items| && f(items[i]).None?
    ensures SumOver(f, items).None?
    decreases |items|
  {
    var last := |items| - 1;
    if i < last {
      assert items[..last][i] == items[i];
      SumOverFails(f, items[..last], i);
    }
  }

  /** The sum over two runs of items is the sum of their sums. */
  lemma {:induction false} SumOverConcat<T>(f: T -> Option<nat>, a: seq<T>, b: seq<T>)
    ensures SumOver(f, a + b) ==
      if SumOver(f, a).Some? && SumOver(f, b).Some? then Some(SumOver(f, a).value + SumOver(f, b).value) else None
    decreases |b|
  {
    if b == [] {
      assert a + b == a;
    } else {
      var last := |b| - 1;
      assert (a + b)[..|a + b| - 1] == a + b[..last];
      assert (a + b)[|a + b| - 1] == b[last];
      SumOverConcat(f, a, b[..last]);
    }
  }

  /** The loop that adds up the values of the items one by one, stopping
      at the first item without a value. */
  method SumLoop<T>(f: T -> Option<nat>, items: seq<T>) returns (r: Option<nat>)
    ensures r == SumOver(f, items)
  {
    var total := 0;
    for i := 0 to |items|
      invariant SumOver(f, items[..i]) == Some(total)
    {
      var value := f(items[i]);
      if value.None? {
        SumOverFails(f, items, i);
        return None;
      }
      SumOverStep(f, items, i);
      total := total + value.value;
    }
    assert items[..|items|] == items;
    return Some(total);
  }

  /** The sum over the items with one more item at the end. */
  lemma SumOverAppend<T>(f: T -> Option<nat>, items: seq<T>, x: T)
    ensures SumOver(f, items + [x]) ==
      if SumOver(f, items).Some? && f(x).Some? then Some(SumOver(f, items).value + f(x).value) else None
  {
    assert (items + [x])[..|items|] == items;
  }

  /** The sum over one item is its value. */
  lemma SumOverSingle<T>(f: T -> Option<nat>, x: T)
    ensures SumOver(f, [x]) == f(x)
  {
    assert [x][..0] == [];
  }

  /** The sequence back to front. */
  function Reverse<T>(s: seq<T>): (r: seq<T>)
    ensures |r| == |s| && forall k :: 0 <= k < |s| ==> r[k] == s[|s| - 1 - k]
  {
    if s == [] then [] else Reverse(s[1..]) + [s[0]]
  }

  /** Reversal is its own inverse. */
  lemma ReverseReverse<T>(s: seq<T>)
    ensures Reverse(Reverse(s)) == s
  {
    var r := Reverse(Reverse(s));
    assert forall k :: 0 <= k < |s| ==> r[k] == s[k];
  }

  /** `str::lines`: the pieces between line feeds, without a last empty piece
      after a final line feed and without a carriage return before a feed.
      A carriage return that ends the text with no feed after it is dropped
      too, which `str::lines` keeps. */
  function Lines(input: string): (lines: seq<string>)
  {
    if input == [] then [] else StripAll(DropFinalEmpty(Split(input, '\n')))
  }

  function DropFinalEmpty(parts: seq<string>): seq<string>
    requires parts != []
  {
    if parts[|parts| - 1] == [] then parts[..|parts| - 1] else parts
  }

  function StripAll(lines: seq<string>): (r: seq<string>)
    ensures |r| == |lines| && forall k :: 0 <= k < |r| ==> r[k] == StripCarriageReturn(lines[k])
  {
    seq(|lines|, k requires 0 <= k < |lines| => StripCarriageReturn(lines[k]))
  }

  function StripCarriageReturn(line: string): string
  {
    if line != [] && line[|line| - 1] == '\r' then line[..|line| - 1] else line
  }

  lemma {:induction false} JoinLength(parts: seq<string>, sep: char)
    requires |parts| >= 1
    ensures |Join(parts, sep)| >= |parts[|parts| - 1]|
  {
    if |parts| > 1 {
      JoinLength(parts[1..], sep);
    }
  }

  /** Lines joined with line feeds are read back as the same lines. */
  lemma LinesOfJoin(rows: seq<string>)
    requires rows != [] && rows[|rows| - 1] != []
    requires forall k :: 0 <= k < |rows| ==> '\n' !in rows[k] && '\r' !in rows[k]
    ensures Lines(Join(rows, '\n')) == rows
  {
    var input := Join(rows, '\n');
    JoinLength(rows, '\n');
    SplitJoin(rows, '\n');
    LinesOfSplit(input, rows);
  }

  lemma LinesOfSplit(input: string, rows: seq<string>)
    requires input != [] && Split(input, '\n') == rows && rows[|rows| - 1] != []
    requires forall k :: 0 <= k < |rows| ==> '\r' !in rows[k]
    ensures Lines(input) == rows
  {
    assert DropFinalEmpty(rows) == rows;
    var stripped := StripAll(rows);
    forall k | 0 <= k < |rows| ensures stripped[k] == rows[k] {
      if rows[k] != [] {
        assert rows[k][|rows[k]| - 1] in rows[k];
      }
    }
  }

  /** The first line of a text is what comes before its first line
      feed. */
  lemma LinesFirst(first: string, rest: string)
    requires '\n' !in first && '\r' !in first
    ensures Lines(first + "\n" + rest) != [] && Lines(first + "\n" + rest)[0] == first
  {
    var s := first + "\n" + rest;
    assert s[|first|] == '\n' && s[..|first|] == first && s[|first| + 1..] == rest;
    SplitAt(s, '\n', |first|);
    if first != [] {
      assert first[|first| - 1] in first;
    }
  }
}
