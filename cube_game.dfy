/** The cube game of 2023 day 2: a game line names its id and the sets of
    cubes drawn from a bag, each set a comma-separated list of counts and
    colours; a game is possible under some rules when no set shows more cubes
    of a colour than the rules allow. */
module CubeConundrum {
  import opened Text

  /** `GameRules`: how many cubes of each colour the bag holds. */
  datatype GameRules = GameRules(red: nat, green: nat, blue: nat)

  /** The three counts one set shows. */
  datatype Cubes = Cubes(red: nat, green: nat, blue: nat)

  /** Every part with the surrounding whitespace trimmed. */
  function TrimAll(parts: seq<string>): (r: seq<string>)
    ensures |r| == |parts|
  {
    seq(|parts|, k requires 0 <= k < |parts| => Trim(parts[k]))
  }

  /** `Game`: one line of the record, kept as text. */
  datatype Game = Game(text: string)
  {
    /** `id`: the second space-separated word of the text before the first
        ':', parsed as a `u32`; `None` where an `unwrap` panics. */
    function Id(): (r: Option<nat>)
      ensures r.Some? ==> r.value <= U32_MAX
    {
      var words := Split(Split(text, ':')[0], ' ');
      if |words| < 2 then None else ParseU32(words[1])
    }

    /** `sets`: the text between the first and the second ':', split on ';'
        and trimmed; `None` where there is no ':' and `nth(1)` panics. */
    function Sets(): (r: Option<seq<string>>)
      ensures r.Some? ==> |r.value| >= 1
    {
      var halves := Split(text, ':');
      if |halves| < 2 then None else Some(TrimAll(Split(halves[1], ';')))
    }
  }

  /** The index of the first part from `i` on that ends with `color` once
      trimmed (`find`). */
  function FirstEnding(parts: seq<string>, color: string, i: nat): (r: Option<nat>)
    ensures r.Some? ==> i <= r.value < |parts|
    decreases |parts| - i
  {
    if i >= |parts| then None
    else if EndsWith(Trim(parts[i]), color) then Some(i)
    else FirstEnding(parts, color, i + 1)
  }

  /** The part found ends with the colour and no part before it does; with
      none found, no part does. */
  lemma {:induction false} FirstEndingSpec(parts: seq<string>, color: string, i: nat)
    ensures var r := FirstEnding(parts, color, i);
      (r.Some? ==> EndsWith(Trim(parts[r.value]), color) && forall k :: i <= k < r.value ==> !EndsWith(Trim(parts[k]), color)) &&
      (r.None? ==> forall k :: i <= k < |parts| ==> !EndsWith(Trim(parts[k]), color))
    decreases |parts| - i
  {
    if i < |parts| && !EndsWith(Trim(parts[i]), color) {
      FirstEndingSpec(parts, color, i + 1);
    }
  }

  /** `get_number_of_cubes`: 0 when the colour does not occur in the set;
      otherwise the first word of the first comma part ending with the colour,
      parsed as a `u32`. `None` where an `unwrap` panics: the colour occurs
      but no part ends with it, or the word is not a number. */
  function CubeCount(draw: string, color: string): (r: Option<nat>)
    ensures !Contains(draw, color) ==> r == Some(0)
    ensures r.Some? ==> r.value <= U32_MAX
  {
    if !Contains(draw, color) then Some(0)
    else
      match FirstEnding(Split(draw, ','), color, 0)
      case None => None
      case Some(k) => ParseU32(Split(Trim(Split(draw, ',')[k]), ' ')[0])
  }

  /** The green, red and blue counts of a set, taken in that order as
      `is_possible` does; `None` as soon as one of them panics. */
  function SetCubes(draw: string): Option<Cubes>
  {
    match CubeCount(draw, "green")
    case None => None
    case Some(green) =>
      match CubeCount(draw, "red")
      case None => None
      case Some(red) =>
        match CubeCount(draw, "blue")
        case None => None
        case Some(blue) => Some(Cubes(red, green, blue))
  }

  /** The rules allow the counts of a set. */
  predicate Within(c: Cubes, rules: GameRules)
  {
    c.green <= rules.green && c.red <= rules.red && c.blue <= rules.blue
  }

  /** The counts of every set, in order. */
  function DrawCounts(sets: seq<string>): (counts: seq<Option<Cubes>>)
    ensures |counts| == |sets|
  {
    if sets == [] then [] else [SetCubes(sets[0])] + DrawCounts(sets[1..])
  }

  /** The counts of set `k`. */
  lemma {:induction false} DrawCountsAt(sets: seq<string>, k: nat)
    requires k < |sets|
    ensures DrawCounts(sets)[k] == SetCubes(sets[k])
  {
    if k > 0 {
      DrawCountsAt(sets[1..], k - 1);
    }
  }

  /** The verdict of the loop of `is_possible` from set `i` on, given the
      counts of the sets: `false` at the first set over the rules, a panic at
      the first set that cannot be read, `true` when every set passes. */
  function Verdict(counts: seq<Option<Cubes>>, rules: GameRules, i: nat): Option<bool>
    decreases |counts| - i
  {
    if i >= |counts| then Some(true)
    else
      match counts[i]
      case None => None
      case Some(c) => if !Within(c, rules) then Some(false) else Verdict(counts, rules, i + 1)
  }

  /** `is_possible` on a whole game. */
  function Possible(game: Game, rules: GameRules): Option<bool>
  {
    match game.Sets()
    case None => None
    case Some(sets) => Verdict(DrawCounts(sets), rules, 0)
  }

  /** `is_possible`: the sets in order, returning `false` at the first set
      that shows more cubes of some colour than the rules allow. */
  method IsPossible(game: Game, rules: GameRules) returns (r: Option<bool>)
    ensures r == Possible(game, rules)
  {
    var sets := game.Sets();
    if sets.None? {
      return None;
    }
    ghost var counts := DrawCounts(sets.value);
    for i := 0 to |sets.value|
      invariant Verdict(counts, rules, 0) == Verdict(counts, rules, i)
    {
      var draw := sets.value[i];
      DrawCountsAt(sets.value, i);
      var green := CubeCount(draw, "green");
      if green.None? {
        return None;
      }
      var red := CubeCount(draw, "red");
      if red.None? {
        return None;
      }
      var blue := CubeCount(draw, "blue");
      if blue.None? {
        return None;
      }
      assert counts[i] == Some(Cubes(red.value, green.value, blue.value));
      if green.value > rules.green || red.value > rules.red || blue.value > rules.blue {
        return Some(false);
      }
    }
    return Some(true);
  }

  /** The verdict is `true` exactly when every set can be read and stays
      within the rules. */
  lemma {:induction false} VerdictTrue(counts: seq<Option<Cubes>>, rules: GameRules, i: nat)
    ensures Verdict(counts, rules, i) == Some(true) <==>
      forall k :: i <= k < |counts| ==> counts[k].Some? && Within(counts[k].value, rules)
    decreases |counts| - i
  {
    if i < |counts| {
      VerdictTrue(counts, rules, i + 1);
    }
  }

  /** The verdict is `false` exactly when some set goes over the rules after
      every set before it was read and passed. */
  lemma {:induction false} VerdictFalse(counts: seq<Option<Cubes>>, rules: GameRules, i: nat)
    ensures Verdict(counts, rules, i) == Some(false) <==>
      exists w :: i <= w < |counts| && counts[w].Some? && !Within(counts[w].value, rules) &&
        forall k :: i <= k < w ==> counts[k].Some? && Within(counts[k].value, rules)
    decreases |counts| - i
  {
    if i < |counts| {
      VerdictFalse(counts, rules, i + 1);
      if counts[i].Some? && Within(counts[i].value, rules) && Verdict(counts, rules, i + 1) == Some(false) {
        var w :| i + 1 <= w < |counts| && counts[w].Some? && !Within(counts[w].value, rules) &&
          forall k :: i + 1 <= k < w ==> counts[k].Some? && Within(counts[k].value, rules);
        assert forall k :: i <= k < w ==> counts[k].Some? && Within(counts[k].value, rules);
      }
    }
  }

  /** A game is possible exactly when it has sets, every one of them can be
      read, and none shows more cubes of a colour than the rules allow. */
  lemma PossibleIff(game: Game, rules: GameRules)
    ensures Possible(game, rules) == Some(true) <==>
      game.Sets().Some? && forall k :: 0 <= k < |game.Sets().value| ==>
        SetCubes(game.Sets().value[k]).Some? && Within(SetCubes(game.Sets().value[k]).value, rules)
  {
    if game.Sets().Some? {
      var sets := game.Sets().value;
      var counts := DrawCounts(sets);
      VerdictTrue(counts, rules, 0);
      forall k | 0 <= k < |sets| ensures counts[k] == SetCubes(sets[k]) {
        DrawCountsAt(sets, k);
      }
    }
  }

  /** What one game adds to the answer of `run`: its id when it is possible,
      nothing when it is not. */
  function Contribution(game: Game, rules: GameRules): Option<nat>
  {
    match Possible(game, rules)
    case None => None
    case Some(possible) => if possible then game.Id() else Some(0)
  }

  /** What each line adds to the answer of `run`. */
  function LineValue(rules: GameRules): string -> Option<nat>
  {
    line => Contribution(Game(line), rules)
  }

  /** The sum `run` computes over some game lines; `None` when one of them
      panics. */
  function Total(lines: seq<string>, rules: GameRules): Option<nat>
  {
    SumOver(LineValue(rules), lines)
  }

  /** An impossible game adds nothing to the total. */
  lemma ImpossibleAddsNothing(lines: seq<string>, line: string, rules: GameRules)
    requires Possible(Game(line), rules) == Some(false)
    ensures Total(lines + [line], rules) == Total(lines, rules)
  {
    assert LineValue(rules)(line) == Contribution(Game(line), rules);
    SumOverAppend(LineValue(rules), lines, line);
  }

  /** A possible game adds its id to the total, and a game whose sets
      cannot be read makes the whole run panic. */
  lemma LineValueOfPossible(line: string, rules: GameRules)
    ensures Possible(Game(line), rules) == Some(true) ==> LineValue(rules)(line) == Game(line).Id()
    ensures Possible(Game(line), rules).None? ==> LineValue(rules)(line).None?
  {
  }

  /** `run`: the ids of the possible games added up, printed. */
  method Run(input: seq<string>, rules: GameRules) returns (r: Option<string>)
    ensures r.Some? <==> Total(input, rules).Some?
    ensures r.Some? ==> r.value == ShowNat(Total(input, rules).value)
  {
    var total := SumLoop(LineValue(rules), input);
    if total.None? {
      return None;
    }
    return Some(ShowNat(total.value));
  }

  /** `id` reads back the number written after "Game ". */
  lemma GameIdOf(n: nat, rest: string)
    requires n <= U32_MAX
    ensures Game("Game " + ShowNat(n) + ":" + rest).Id() == Some(n)
  {
    var number := ShowNat(n);
    var head := "Game " + number;
    var text := head + ":" + rest;
    ShowNatHasNoBreak(n);
    assert ':' !in number by {
      assert forall k :: 0 <= k < |number| ==> IsDigit(number[k]);
    }
    assert text[..|head|] == head && text[|head|] == ':';
    SplitAt(text, ':', |head|);
    assert head[..4] == "Game" && head[4] == ' ' && head[5..] == number;
    SplitAt(head, ' ', 4);
    SplitWithoutSeparator(number, ' ');
    ParseShowNat(n);
  }

  /** A separator absent from every part and distinct from the joining one is
      absent from the joined text. */
  lemma {:induction false} JoinAvoids(parts: seq<string>, sep: char, c: char)
    requires |parts| >= 1 && c != sep
    requires forall k :: 0 <= k < |parts| ==> c !in parts[k]
    ensures c !in Join(parts, sep)
  {
    if |parts| > 1 {
      JoinAvoids(parts[1..], sep, c);
    }
  }

  /** `sets` gives back, trimmed, the sets written after the ':'. */
  lemma GameSetsOf(head: string, sets: seq<string>)
    requires ':' !in head && |sets| >= 1
    requires forall k :: 0 <= k < |sets| ==> ':' !in sets[k] && ';' !in sets[k]
    ensures Game(head + ":" + Join(sets, ';')).Sets() == Some(TrimAll(sets))
  {
    var body := Join(sets, ';');
    var text := head + ":" + body;
    assert text[..|head|] == head && text[|head|] == ':' && text[|head| + 1..] == body;
    SplitAt(text, ':', |head|);
    JoinAvoids(sets, ';', ':');
    SplitWithoutSeparator(body, ':');
    SplitJoin(sets, ';');
  }
}
