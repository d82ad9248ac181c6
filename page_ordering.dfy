/** The print queue of 2024 day 5: rules "a|b" say page a must come before
    page b, updates are comma-separated lists of pages; the middle pages of
    the updates that keep every rule are added up. */
module PrintQueue {
  import opened Text

  /** `Rule`: the page that must come first and the one after it. */
  datatype Rule = Rule(before: int, after: int)

  /** `Update`: the pages in the order printed. */
  datatype Update = Update(pages: seq<int>)

  /** `Rule.from_str`: the text split at '|' must give exactly two pieces,
      each read with `int`; anything else raises. */
  function RuleFromStr(input: string): (r: Option<Rule>)
    ensures r.Some? <==>
      |Split(input, '|')| == 2 && PyInt(Split(input, '|')[0]).Some? && PyInt(Split(input, '|')[1]).Some?
    ensures r.Some? ==>
      Some(r.value.before) == PyInt(Split(input, '|')[0]) && Some(r.value.after) == PyInt(Split(input, '|')[1])
  {
    var pieces := Split(input, '|');
    if |pieces| != 2 then None
    else
      match (PyInt(pieces[0]), PyInt(pieces[1]))
      case (Some(before), Some(after)) => Some(Rule(before, after))
      case _ => None
  }

  /** A rule written out as "a|b" reads back. */
  lemma RuleFromStrShown(before: nat, after: nat)
    ensures RuleFromStr(ShowNat(before) + "|" + ShowNat(after)) == Some(Rule(before, after))
  {
    ShowNatHasNoBreak(before);
    ShowNatHasNoBreak(after);
    ParseShowNat(before);
    ParseShowNat(after);
    SplitJoin([ShowNat(before), ShowNat(after)], '|');
    assert Join([ShowNat(before), ShowNat(after)], '|') == ShowNat(before) + "|" + ShowNat(after);
  }

  /** A text without exactly one '|' is no rule. */
  lemma RuleFromStrWithoutBar(input: string)
    requires '|' !in input
    ensures RuleFromStr(input).None?
  {
    SplitWithoutSeparator(input, '|');
  }

  /** `Update.from_str`: the text split at ',' and every piece read with
      `int`. */
  function UpdateFromStr(input: string): (r: Option<Update>)
    ensures r.Some? ==> |r.value.pages| == |Split(input, ',')| >= 1
  {
    match ParseAll(PyInt, Split(input, ','))
    case None => None
    case Some(pages) => Some(Update(pages))
  }

  /** The position of the first `page` in the pages: `list.index`. */
  function PageIndex(pages: seq<int>, page: int): (i: nat)
    requires page in pages
    ensures i < |pages| && pages[i] == page && page !in pages[..i]
  {
    if pages[0] == page then 0
    else
      assert page in pages[1..];
      1 + PageIndex(pages[1..], page)
  }

  /** `middle_page`: the page at half the length rounded down; an update
      without pages has none, which raises. */
  function MiddlePage(update: Update): (p: int)
    requires update.pages != []
    ensures var m := |update.pages| / 2;
      p == update.pages[m] && |update.pages[..m]| - |update.pages[m + 1..]| in {0, 1}
  {
    update.pages[|update.pages| / 2]
  }

  /** `evaluate`: a rule holds when one of its pages is missing from the
      update, and otherwise when the first `before` comes before the first
      `after`. */
  predicate Evaluate(update: Update, rule: Rule)
  {
    if rule.before !in update.pages || rule.after !in update.pages then true
    else PageIndex(update.pages, rule.before) < PageIndex(update.pages, rule.after)
  }

  /** When both pages appear, a rule holds exactly when some `before`
      comes ahead of every `after`. */
  lemma EvaluateIff(update: Update, rule: Rule)
    requires rule.before in update.pages && rule.after in update.pages
    ensures Evaluate(update, rule) <==>
      exists i :: 0 <= i < |update.pages| && update.pages[i] == rule.before && rule.after !in update.pages[..i + 1]
  {
    var pages := update.pages;
    var b, a := PageIndex(pages, rule.before), PageIndex(pages, rule.after);
    if Evaluate(update, rule) {
      assert pages[..b + 1] == pages[..b] + [pages[b]];
    } else {
      forall i | 0 <= i < |pages| && pages[i] == rule.before
        ensures rule.after in pages[..i + 1]
      {
        assert pages[..i + 1][a] == rule.after;
      }
    }
  }

  /** A rule that puts a page before itself fails every update holding
      the page. */
  lemma SelfRuleFails(update: Update, page: int)
    requires page in update.pages
    ensures !Evaluate(update, Rule(page, page))
  {
  }

  /** A rule about a page the update lacks holds. */
  lemma AbsentPageHolds(update: Update, rule: Rule)
    requires rule.before !in update.pages || rule.after !in update.pages
    ensures Evaluate(update, rule)
  {
  }

  /** The rules of the examples on the update 1, 2, 3: one about a page it
      lacks holds, 1 before 3 holds, 2 before 1 does not; the middle page of
      12, 32, 54 is 32. */
  lemma UpdateExamples()
    ensures Evaluate(Update([1, 2, 3]), Rule(5, 3))
    ensures Evaluate(Update([1, 2, 3]), Rule(1, 3))
    ensures !Evaluate(Update([1, 2, 3]), Rule(2, 1))
    ensures EvaluateAll(Update([1, 2, 3]), [Rule(1, 3), Rule(2, 3), Rule(1, 2)])
    ensures !EvaluateAll(Update([1, 2, 3]), [Rule(1, 3), Rule(1, 3), Rule(3, 2)])
    ensures MiddlePage(Update([12, 32, 54])) == 32
  {
    var pages := [1, 2, 3];
    assert pages[1..] == [2, 3] && pages[1..][1..] == [3];
    assert PageIndex(pages, 1) == 0;
    assert PageIndex(pages, 2) == 1;
    assert PageIndex(pages, 3) == 2;
    var rules := [Rule(1, 3), Rule(1, 3), Rule(3, 2)];
    assert !Evaluate(Update(pages), rules[2]);
  }

  /** Every rule holds. */
  predicate EvaluateAll(update: Update, rules: seq<Rule>)
  {
    forall k :: 0 <= k < |rules| ==> Evaluate(update, rules[k])
  }

  /** `evaluate_set`: the rules in order, `false` at the first that fails. */
  method EvaluateSet(update: Update, rules: seq<Rule>) returns (ordered: bool)
    ensures ordered == EvaluateAll(update, rules)
  {
    for i := 0 to |rules|
      invariant forall k :: 0 <= k < i ==> Evaluate(update, rules[k])
    {
      if !Evaluate(update, rules[i]) {
        return false;
      }
    }
    return true;
  }

  /** `get_rules`: one rule per line, in order. */
  method GetRules(lines: seq<string>) returns (rules: Option<seq<Rule>>)
    ensures rules == ParseAll(RuleFromStr, lines)
  {
    var parsed: seq<Rule> := [];
    for i := 0 to |lines|
      invariant ParseAll(RuleFromStr, lines[..i]) == Some(parsed)
    {
      ParseAllStep(RuleFromStr, lines, i);
      var rule := RuleFromStr(lines[i]);
      if rule.None? {
        ParseAllFails(RuleFromStr, lines, i + 1);
        return None;
      }
      parsed := parsed + [rule.value];
    }
    assert lines[..|lines|] == lines;
    return Some(parsed);
  }

  /** `get_updates`: one update per line, in order. */
  method GetUpdates(lines: seq<string>) returns (updates: Option<seq<Update>>)
    ensures updates == ParseAll(UpdateFromStr, lines)
  {
    var parsed: seq<Update> := [];
    for i := 0 to |lines|
      invariant ParseAll(UpdateFromStr, lines[..i]) == Some(parsed)
    {
      ParseAllStep(UpdateFromStr, lines, i);
      var update := UpdateFromStr(lines[i]);
      if update.None? {
        ParseAllFails(UpdateFromStr, lines, i + 1);
        return None;
      }
      parsed := parsed + [update.value];
    }
    assert lines[..|lines|] == lines;
    return Some(parsed);
  }

  /** The position of the first empty line. */
  function BlankIndex(lines: seq<string>): (i: nat)
    requires "" in lines
    ensures i < |lines| && lines[i] == "" && "" !in lines[..i]
  {
    if lines[0] == "" then 0
    else
      assert "" in lines[1..];
      1 + BlankIndex(lines[1..])
  }

  /** The lines before the first empty line and those after it; `None`
      when no line is empty. */
  function Sections(lines: seq<string>): (s: Option<(seq<string>, seq<string>)>)
    ensures s.None? <==> "" !in lines
    ensures s.Some? ==> lines == s.value.0 + [""] + s.value.1 && "" !in s.value.0
  {
    if "" !in lines then None
    else
      var separation := BlankIndex(lines);
      assert lines == lines[..separation] + [""] + lines[separation + 1..];
      Some((lines[..separation], lines[separation + 1..]))
  }

  /** `get_rules_and_updates`: the rules on the lines before the first
      empty line and the updates on those after it; without an empty line
      `list.index` raises. */
  method GetRulesAndUpdates(lines: seq<string>) returns (r: Option<(seq<Rule>, seq<Update>)>)
    ensures "" !in lines ==> r.None?
    ensures "" in lines ==> var (before, after) := Sections(lines).value;
      r == Both(ParseAll(RuleFromStr, before), ParseAll(UpdateFromStr, after))
  {
    var sections := Sections(lines);
    if sections.None? {
      return None;
    }
    var (before, after) := sections.value;
    var rules := GetRules(before);
    var updates := GetUpdates(after);
    r := Both(rules, updates);
  }

  /** Both values when both are present. */
  function Both<A, B>(a: Option<A>, b: Option<B>): Option<(A, B)>
  {
    if a.Some? && b.Some? then Some((a.value, b.value)) else None
  }

  /** The updates that keep every rule, in their order. */
  function Ordered(updates: seq<Update>, rules: seq<Rule>): seq<Update>
  {
    if updates == [] then []
    else
      var last := |updates| - 1;
      Ordered(updates[..last], rules) + if EvaluateAll(updates[last], rules) then [updates[last]] else []
  }

  /** The updates kept are those that keep every rule, none dropped and
      none added. */
  lemma {:induction false} OrderedSpec(updates: seq<Update>, rules: seq<Rule>)
    ensures |Ordered(updates, rules)| <= |updates|
    ensures forall u :: u in Ordered(updates, rules) <==> u in updates && EvaluateAll(u, rules)
  {
    if updates != [] {
      var last := |updates| - 1;
      OrderedSpec(updates[..last], rules);
      assert updates == updates[..last] + [updates[last]];
    }
  }

  /** Keeping the ordered updates of two runs of updates keeps them in
      order: what is kept from the first run comes first. */
  lemma {:induction false} OrderedConcat(a: seq<Update>, b: seq<Update>, rules: seq<Rule>)
    ensures Ordered(a + b, rules) == Ordered(a, rules) + Ordered(b, rules)
  {
    if b != [] {
      var last := |b| - 1;
      OrderedConcat(a, b[..last], rules);
      assert (a + b)[..|a + b| - 1] == a + b[..last];
    } else {
      assert a + b == a;
    }
  }

  /** `get_correctly_ordered_updates`: the updates whose rules all hold,
      appended in turn. */
  method GetCorrectlyOrderedUpdates(updates: seq<Update>, rules: seq<Rule>) returns (ordered: seq<Update>)
    ensures ordered == Ordered(updates, rules)
  {
    ordered := [];
    for i := 0 to |updates|
      invariant ordered == Ordered(updates[..i], rules)
    {
      assert updates[..i + 1][..i] == updates[..i];
      var keep := EvaluateSet(updates[i], rules);
      if keep {
        ordered := ordered + [updates[i]];
      }
    }
    assert updates[..|updates|] == updates;
  }

  /** The middle pages added up. */
  function MiddleSum(updates: seq<Update>): int
    requires forall u :: u in updates ==> u.pages != []
  {
    if updates == [] then 0
    else
      var last := |updates| - 1;
      MiddleSum(updates[..last]) + MiddlePage(updates[last])
  }

  /** The sum over two runs of updates is the sum of their sums. */
  lemma {:induction false} MiddleSumConcat(a: seq<Update>, b: seq<Update>)
    requires forall u :: u in a ==> u.pages != []
    requires forall u :: u in b ==> u.pages != []
    ensures MiddleSum(a + b) == MiddleSum(a) + MiddleSum(b)
  {
    if b != [] {
      var last := |b| - 1;
      MiddleSumConcat(a, b[..last]);
      assert (a + b)[..|a + b| - 1] == a + b[..last];
    } else {
      assert a + b == a;
    }
  }

  /** `sum_middle_pages`: each middle page added in turn. */
  method SumMiddlePages(updates: seq<Update>) returns (sum: int)
    requires forall u :: u in updates ==> u.pages != []
    ensures sum == MiddleSum(updates)
  {
    sum := 0;
    for i := 0 to |updates|
      invariant sum == MiddleSum(updates[..i])
    {
      assert updates[..i + 1][..i] == updates[..i];
      sum := sum + MiddlePage(updates[i]);
    }
    assert updates[..|updates|] == updates;
  }

  /** Updates read from lines have pages. */
  lemma UpdatesHavePages(lines: seq<string>)
    requires ParseAll(UpdateFromStr, lines).Some?
    ensures forall u :: u in ParseAll(UpdateFromStr, lines).value ==> u.pages != []
  {
    ParseAllSpec(UpdateFromStr, lines);
  }

  /** Part one: the rules and the updates read, and the middle pages of
      the correctly ordered updates added up. */
  function PartOneValue(input: seq<string>): Option<int>
  {
    match Sections(input)
    case None => None
    case Some((before, after)) =>
      match (ParseAll(RuleFromStr, before), ParseAll(UpdateFromStr, after))
      case (Some(rules), Some(updates)) =>
        UpdatesHavePages(after);
        OrderedSpec(updates, rules);
        Some(MiddleSum(Ordered(updates, rules)))
      case _ => None
  }

  /** `part_one`. */
  method PartOne(input: seq<string>) returns (r: Option<int>)
    ensures r == PartOneValue(input)
  {
    var read := GetRulesAndUpdates(input);
    if read.None? {
      return None;
    }
    var (rules, updates) := read.value;
    UpdatesHavePages(Sections(input).value.1);
    var ordered := GetCorrectlyOrderedUpdates(updates, rules);
    OrderedSpec(updates, rules);
    var sum := SumMiddlePages(ordered);
    return Some(sum);
  }
}
