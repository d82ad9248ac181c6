/** The corrupted memory of 2024 day 3: the instructions `mul(a,b)`, with
    `a` and `b` of one to three digits, are found in a text left to right
    without overlapping, the way the regular expression
    `mul\(\d{1,3},\d{1,3}\)` finds them, and the products of their two
    numbers are added up. */
module MullItOver {
  import opened Text

  /** One to three decimal digits: what `\d{1,3}` matches. */
  predicate IsCoefficient(digits: string)
  {
    1 <= |digits| <= 3 && AllDigits(digits)
  }

  /** The instruction text with its two numbers. */
  function MulText(left: string, right: string): string
  {
    "mul(" + left + "," + right + ")"
  }

  /** The two numbers of the instruction that starts at `i`, when one does:
      "mul(", a run of one to three digits closed by ',', a run of one to
      three digits closed by ')'. A run of four digits or more matches no
      shorter run either, since a digit, not the closing character, would
      follow it. */
  function MulArgs(s: string, i: nat): (r: Option<(string, string)>)
    ensures r.Some? ==>
      IsCoefficient(r.value.0) && IsCoefficient(r.value.1) &&
      i + |MulText(r.value.0, r.value.1)| <= |s| &&
      s[i..i + |MulText(r.value.0, r.value.1)|] == MulText(r.value.0, r.value.1)
  {
    if i + 4 <= |s| && s[i..i + 4] == "mul(" then
      var a := RunEnd(s, i + 4);
      if 1 <= a - (i + 4) <= 3 && a < |s| && s[a] == ',' then
        var b := RunEnd(s, a + 1);
        if 1 <= b - (a + 1) <= 3 && b < |s| && s[b] == ')' then
          MulArgsShape(s, i, a, b);
          Some((s[i + 4..a], s[a + 1..b]))
        else None
      else None
    else None
  }

  /** The pieces an instruction is read from spell its text. */
  lemma MulArgsShape(s: string, i: nat, a: nat, b: nat)
    requires i + 4 <= a < b < |s| && s[i..i + 4] == "mul(" && s[a] == ',' && s[b] == ')'
    requires 1 <= a - (i + 4) <= 3 && 1 <= b - (a + 1) <= 3
    requires forall k :: i + 4 <= k < a ==> IsDigit(s[k])
    requires forall k :: a + 1 <= k < b ==> IsDigit(s[k])
    ensures IsCoefficient(s[i + 4..a]) && IsCoefficient(s[a + 1..b])
    ensures i + |MulText(s[i + 4..a], s[a + 1..b])| <= |s|
    ensures s[i..i + |MulText(s[i + 4..a], s[a + 1..b])|] == MulText(s[i + 4..a], s[a + 1..b])
  {
    var left, right := s[i + 4..a], s[a + 1..b];
    assert forall k :: 0 <= k < |left| ==> left[k] == s[i + 4 + k];
    assert forall k :: 0 <= k < |right| ==> right[k] == s[a + 1 + k];
    assert |MulText(left, right)| == b + 1 - i;
    assert s[i..b + 1] == s[i..i + 4] + left + [','] + right + [')'];
  }

  /** An instruction text is read back as the instruction it spells. */
  lemma MulArgsOfText(left: string, right: string)
    requires IsCoefficient(left) && IsCoefficient(right)
    ensures MulArgs(MulText(left, right), 0) == Some((left, right))
  {
    var s := MulText(left, right);
    var a := 4 + |left|;
    assert s[..4] == "mul(";
    assert s[4..a] == left && s[a] == ',';
    assert RunEnd(s, 4) == a by {
      forall k | 4 <= k < a ensures IsDigit(s[k]) {
        assert s[k] == left[k - 4];
      }
      RunEndIs(s, 4, a);
    }
    var b := a + 1 + |right|;
    assert s[a + 1..b] == right && s[b] == ')';
    assert RunEnd(s, a + 1) == b by {
      forall k | a + 1 <= k < b ensures IsDigit(s[k]) {
        assert s[k] == right[k - a - 1];
      }
      RunEndIs(s, a + 1, b);
    }
  }

  /** A run of digits from `i` that a non-digit closes at `j` ends there. */
  lemma RunEndIs(s: string, i: nat, j: nat)
    requires i <= j < |s| && !IsDigit(s[j])
    requires forall k :: i <= k < j ==> IsDigit(s[k])
    ensures RunEnd(s, i) == j
  {
  }

  /** No 'm' follows the first character of an instruction. */
  lemma NoMInside(left: string, right: string, d: nat)
    requires IsCoefficient(left) && IsCoefficient(right)
    requires 1 <= d < |MulText(left, right)|
    ensures MulText(left, right)[d] != 'm'
  {
    var s := MulText(left, right);
    if 4 <= d < 4 + |left| {
      assert s[d] == left[d - 4];
    } else if 4 + |left| < d < 5 + |left| + |right| {
      assert s[d] == right[d - 5 - |left|];
    }
  }

  /** An instruction found at `pos`, with its two numbers. */
  datatype Match = Match(pos: nat, left: string, right: string)

  /** How many characters an instruction with these numbers takes. */
  function Length(args: (string, string)): (n: nat)
    ensures n >= 6
  {
    |MulText(args.0, args.1)|
  }

  /** What `re.findall` does with a pattern whose matches `find` reports
      position by position: from `i` on, a match is taken and the scan goes
      on after its end; where none starts, the scan moves one character on. */
  function Scan(find: nat -> Option<(string, string)>, i: nat, n: nat): seq<Match>
    decreases n - i
  {
    if i >= n then []
    else
      match find(i)
      case None => Scan(find, i + 1, n)
      case Some(args) => [Match(i, args.0, args.1)] + Scan(find, i + Length(args), n)
  }

  /** Every match of `ms` is one `find` reports at its position, between
      `i` and `n`. */
  ghost predicate AllReported(find: nat -> Option<(string, string)>, ms: seq<Match>, i: nat, n: nat)
  {
    forall k :: 0 <= k < |ms| ==> i <= ms[k].pos < n && find(ms[k].pos) == Some((ms[k].left, ms[k].right))
  }

  /** Each match of `ms` starts after the end of the one before. */
  predicate Apart(ms: seq<Match>)
  {
    forall k :: 0 < k < |ms| ==> ms[k - 1].pos + Length((ms[k - 1].left, ms[k - 1].right)) <= ms[k].pos
  }

  /** Every match taken is one `find` reports at its position, from `i`
      on. */
  lemma {:induction false} ScanSound(find: nat -> Option<(string, string)>, i: nat, n: nat)
    ensures AllReported(find, Scan(find, i, n), i, n)
    decreases n - i
  {
    if i < n {
      match find(i)
      case None =>
        ScanSound(find, i + 1, n);
      case Some(args) =>
        ScanSound(find, i + Length(args), n);
        var rest := Scan(find, i + Length(args), n);
        var ms := [Match(i, args.0, args.1)] + rest;
        assert Scan(find, i, n) == ms;
        forall k | 0 < k < |ms|
          ensures i <= ms[k].pos < n && find(ms[k].pos) == Some((ms[k].left, ms[k].right))
        {
          assert ms[k] == rest[k - 1];
        }
    }
  }

  /** Each match taken starts after the end of the one before. */
  lemma {:induction false} ScanApart(find: nat -> Option<(string, string)>, i: nat, n: nat)
    ensures Apart(Scan(find, i, n))
    decreases n - i
  {
    if i < n {
      match find(i)
      case None =>
        ScanApart(find, i + 1, n);
      case Some(args) =>
        var next := i + Length(args);
        ScanApart(find, next, n);
        ScanSound(find, next, n);
        var rest := Scan(find, next, n);
        var ms := [Match(i, args.0, args.1)] + rest;
        assert Scan(find, i, n) == ms;
        forall k | 0 < k < |ms|
          ensures ms[k - 1].pos + Length((ms[k - 1].left, ms[k - 1].right)) <= ms[k].pos
        {
          assert ms[k] == rest[k - 1];
          if k > 1 {
            assert ms[k - 1] == rest[k - 2];
          }
        }
    }
  }

  /** No match starts inside another one. */
  ghost predicate NoStartInside(find: nat -> Option<(string, string)>)
  {
    forall p: nat, q: nat :: p < q && find(p).Some? && q < p + Length(find(p).value) ==> find(q).None?
  }

  /** When no match starts inside another, every match that starts from `i`
      on is taken. */
  lemma {:induction false} ScanComplete(find: nat -> Option<(string, string)>, i: nat, n: nat, j: nat)
    requires NoStartInside(find)
    requires i <= j < n && find(j).Some?
    ensures Match(j, find(j).value.0, find(j).value.1) in Scan(find, i, n)
    decreases n - i
  {
    match find(i)
    case None =>
      ScanComplete(find, i + 1, n, j);
    case Some(args) =>
      if i < j {
        ScanComplete(find, i + Length(args), n, j);
      }
  }

  /** Where an instruction of `s` starts, if one does. */
  function Finder(s: string): nat -> Option<(string, string)>
  {
    (p: nat) => MulArgs(s, p)
  }

  /** No instruction starts inside another: an instruction starts with 'm'
      and no other of its characters is one. */
  lemma NoneStartsInside(s: string, p: nat, q: nat)
    requires MulArgs(s, p).Some? && p < q < p + Length(MulArgs(s, p).value)
    ensures MulArgs(s, q).None?
  {
    var args := MulArgs(s, p).value;
    var end := p + Length(args);
    if MulArgs(s, q).Some? {
      var other := MulArgs(s, q).value;
      assert s[q..q + Length(other)][0] == 'm';
      assert s[p..end][q - p] == s[q];
      NoMInside(args.0, args.1, q - p);
    }
  }

  lemma InstructionsApart(s: string)
    ensures NoStartInside(Finder(s))
  {
    var find := Finder(s);
    forall p: nat, q: nat | p < q && find(p).Some? && q < p + Length(find(p).value)
      ensures find(q).None?
    {
      NoneStartsInside(s, p, q);
    }
  }

  /** The instructions found in `s`, left to right. */
  function Matches(s: string): seq<Match>
  {
    Scan(Finder(s), 0, |s|)
  }

  /** Every instruction found is one, at its position, and none overlaps
      the next. */
  lemma MatchesSound(s: string)
    ensures forall k :: 0 <= k < |Matches(s)| ==>
      MulArgs(s, Matches(s)[k].pos) == Some((Matches(s)[k].left, Matches(s)[k].right))
    ensures Apart(Matches(s))
  {
    ScanSound(Finder(s), 0, |s|);
    ScanApart(Finder(s), 0, |s|);
  }

  /** Every instruction of `s` is found. */
  lemma MatchesComplete(s: string, j: nat)
    requires MulArgs(s, j).Some?
    ensures Match(j, MulArgs(s, j).value.0, MulArgs(s, j).value.1) in Matches(s)
  {
    InstructionsApart(s);
    ScanComplete(Finder(s), 0, |s|, j);
  }

  /** `get_mul_occurrences`: the text of every instruction found, left to
      right. */
  function MulOccurrences(s: string): (r: seq<string>)
    ensures |r| == |Matches(s)|
  {
    Map((m: Match) => MulText(m.left, m.right), Matches(s))
  }

  /** The runs of digits that `\d{1,3}` finds from `i` on: a run longer than
      three digits is cut into pieces of three and a remainder. */
  function NumberGroups(s: string, i: nat): (r: seq<string>)
    requires i <= |s|
    ensures forall k :: 0 <= k < |r| ==> IsCoefficient(r[k])
    decreases |s| - i
  {
    if i == |s| then []
    else if !IsDigit(s[i]) then NumberGroups(s, i + 1)
    else
      var e := RunEnd(s, i);
      var n := if e - i <= 3 then e - i else 3;
      [s[i..i + n]] + NumberGroups(s, i + n)
  }

  /** Non-digits add no group. */
  lemma {:induction false} NumberGroupsSkip(s: string, i: nat, j: nat)
    requires i <= j <= |s|
    requires forall k :: i <= k < j ==> !IsDigit(s[k])
    ensures NumberGroups(s, i) == NumberGroups(s, j)
    decreases j - i
  {
    if i < j {
      NumberGroupsSkip(s, i + 1, j);
    }
  }

  /** A run of one to three digits closed by a non-digit is one group. */
  lemma NumberGroupsRun(s: string, i: nat, j: nat)
    requires i < j < |s| && j - i <= 3 && !IsDigit(s[j])
    requires forall k :: i <= k < j ==> IsDigit(s[k])
    ensures NumberGroups(s, i) == [s[i..j]] + NumberGroups(s, j)
  {
    RunEndIs(s, i, j);
  }

  /** The numbers an instruction's text shows are its two numbers. */
  lemma NumberGroupsOfText(left: string, right: string)
    requires IsCoefficient(left) && IsCoefficient(right)
    ensures NumberGroups(MulText(left, right), 0) == [left, right]
  {
    var s := MulText(left, right);
    MulTextShape(left, right);
    GroupsOfLeft(s, left);
    GroupsOfRight(s, 5 + |left|, right);
  }

  /** Where the pieces of an instruction's text lie. */
  lemma MulTextShape(left: string, right: string)
    ensures var s := MulText(left, right);
      |s| == 6 + |left| + |right| &&
      (forall k :: 0 <= k < 4 ==> !IsDigit(s[k])) &&
      s[4..4 + |left|] == left && s[4 + |left|] == ',' &&
      s[5 + |left|..5 + |left| + |right|] == right && s[5 + |left| + |right|] == ')'
  {
    var s := MulText(left, right);
    assert s[..4] == "mul(";
    assert forall k :: 0 <= k < 4 ==> s[k] == "mul("[k];
  }

  /** The digits of a piece of a string are digits of the string. */
  lemma DigitsWithin(s: string, i: nat, d: string)
    requires i + |d| <= |s| && s[i..i + |d|] == d && AllDigits(d)
    ensures forall k :: i <= k < i + |d| ==> IsDigit(s[k])
  {
    forall k | i <= k < i + |d| ensures IsDigit(s[k]) {
      assert s[k] == d[k - i];
    }
  }

  /** A text that starts with four non-digits, a number and a comma has
      that number as its first group. */
  lemma GroupsOfLeft(s: string, left: string)
    requires IsCoefficient(left) && 5 + |left| <= |s|
    requires forall k :: 0 <= k < 4 ==> !IsDigit(s[k])
    requires s[4..4 + |left|] == left && s[4 + |left|] == ','
    ensures NumberGroups(s, 0) == [left] + NumberGroups(s, 5 + |left|)
  {
    var a := 4 + |left|;
    assert NumberGroups(s, 0) == NumberGroups(s, 4) by {
      NumberGroupsSkip(s, 0, 4);
    }
    assert NumberGroups(s, 4) == [left] + NumberGroups(s, a) by {
      DigitsWithin(s, 4, left);
      NumberGroupsRun(s, 4, a);
    }
    assert !IsDigit(s[a]);
    assert NumberGroups(s, a) == NumberGroups(s, a + 1);
  }

  /** A number at `a` closed by a last character that is no digit is the
      last group. */
  lemma GroupsOfRight(s: string, a: nat, right: string)
    requires IsCoefficient(right) && a + |right| + 1 == |s|
    requires s[a..a + |right|] == right && !IsDigit(s[a + |right|])
    ensures NumberGroups(s, a) == [right]
  {
    var b := a + |right|;
    DigitsWithin(s, a, right);
    NumberGroupsRun(s, a, b);
    assert NumberGroups(s, b) == NumberGroups(s, b + 1) == [];
  }

  /** The two numbers of one sentence: its first two groups read with
      `int`; fewer than two groups raise, which is `None`. */
  function SentenceCoefficients(sentence: string): Option<(nat, nat)>
  {
    var groups := NumberGroups(sentence, 0);
    if |groups| < 2 then None
    else Some((DecimalValue(groups[0]), DecimalValue(groups[1])))
  }

  /** The numbers of every sentence, in order. */
  function Coefficients(sentences: seq<string>): Option<seq<(nat, nat)>>
  {
    if sentences == [] then Some([])
    else
      var last := |sentences| - 1;
      match (Coefficients(sentences[..last]), SentenceCoefficients(sentences[last]))
      case (Some(cs), Some(c)) => Some(cs + [c])
      case _ => None
  }

  /** `get_mul_coefficients`: the numbers of each sentence appended in
      turn. */
  method GetMulCoefficients(sentences: seq<string>) returns (r: Option<seq<(nat, nat)>>)
    ensures r == Coefficients(sentences)
  {
    var coefficients: seq<(nat, nat)> := [];
    for i := 0 to |sentences|
      invariant Coefficients(sentences[..i]) == Some(coefficients)
    {
      assert sentences[..i + 1][..i] == sentences[..i];
      var c := SentenceCoefficients(sentences[i]);
      if c.None? {
        CoefficientsFail(sentences, i);
        return None;
      }
      coefficients := coefficients + [c.value];
    }
    assert sentences[..|sentences|] == sentences;
    return Some(coefficients);
  }

  /** A sentence without two numbers makes the whole list fail. */
  lemma {:induction false} CoefficientsFail(sentences: seq<string>, i: nat)
    requires i < |sentences| && SentenceCoefficients(sentences[i]).None?
    ensures Coefficients(sentences).None?
  {
    var last := |sentences| - 1;
    if i < last {
      assert sentences[..last][i] == sentences[i];
      CoefficientsFail(sentences[..last], i);
    }
  }

  /** The two numbers of every instruction found, as numbers. */
  function MatchValues(ms: seq<Match>): seq<(nat, nat)>
    requires forall k :: 0 <= k < |ms| ==> IsCoefficient(ms[k].left) && IsCoefficient(ms[k].right)
  {
    if ms == [] then []
    else
      var last := |ms| - 1;
      assert forall k :: 0 <= k < last ==> ms[..last][k] == ms[k];
      assert IsCoefficient(ms[last].left) && IsCoefficient(ms[last].right);
      MatchValues(ms[..last]) + [(DecimalValue(ms[last].left), DecimalValue(ms[last].right))]
  }

  /** Reading the numbers back from the instruction texts never fails and
      gives the numbers of the instructions. */
  lemma {:induction false} CoefficientsOfMatches(ms: seq<Match>)
    requires forall k :: 0 <= k < |ms| ==> IsCoefficient(ms[k].left) && IsCoefficient(ms[k].right)
    ensures Coefficients(Map((m: Match) => MulText(m.left, m.right), ms)) == Some(MatchValues(ms))
  {
    if ms != [] {
      var last := |ms| - 1;
      var texts := Map((m: Match) => MulText(m.left, m.right), ms);
      assert texts[..last] == Map((m: Match) => MulText(m.left, m.right), ms[..last]);
      CoefficientsOfMatches(ms[..last]);
      NumberGroupsOfText(ms[last].left, ms[last].right);
    }
  }

  /** `operate_mul_coefficients`: the sum of the products. */
  function SumOfProducts(cs: seq<(nat, nat)>): nat
  {
    if cs == [] then 0
    else
      var last := |cs| - 1;
      SumOfProducts(cs[..last]) + cs[last].0 * cs[last].1
  }

  /** The sum of products over two lists one after the other is the sum of
      their sums. */
  lemma {:induction false} SumOfProductsConcat(a: seq<(nat, nat)>, b: seq<(nat, nat)>)
    ensures SumOfProducts(a + b) == SumOfProducts(a) + SumOfProducts(b)
    decreases |b|
  {
    if b == [] {
      assert a + b == a;
    } else {
      var last := |b| - 1;
      assert (a + b)[..|a + b| - 1] == a + b[..last];
      SumOfProductsConcat(a, b[..last]);
    }
  }

  /** A pair with a zero adds nothing. */
  lemma SumOfProductsZero(a: seq<(nat, nat)>, x: nat)
    ensures SumOfProducts(a + [(0, x)]) == SumOfProducts(a)
    ensures SumOfProducts(a + [(x, 0)]) == SumOfProducts(a)
  {
    assert (a + [(0, x)])[..|a|] == a;
    assert (a + [(x, 0)])[..|a|] == a;
  }

  /** `part_one`: the sum of the products of the numbers of every
      instruction found. */
  function PartOne(input: string): Option<nat>
  {
    match Coefficients(MulOccurrences(input))
    case None => None
    case Some(cs) => Some(SumOfProducts(cs))
  }

  /** Part one never fails, and it is the sum of the products of the
      numbers of the instructions found. */
  lemma PartOneOfMatches(input: string)
    ensures forall k :: 0 <= k < |Matches(input)| ==>
      IsCoefficient(Matches(input)[k].left) && IsCoefficient(Matches(input)[k].right)
    ensures PartOne(input) == Some(SumOfProducts(MatchValues(Matches(input))))
  {
    var ms := Matches(input);
    MatchesSound(input);
    CoefficientsOfMatches(ms);
  }
}
