/** The keep-away game of 2022 day 11: monkeys pass worry values to each other,
    each one inspecting every item it holds, changing its worry value and throwing
    it to one of two other monkeys depending on a divisibility test. */
module KeepAway {
  import opened Text
  import Arith

  /** What a monkey does to the worry value of an item it inspects. */
  datatype Operation = Mul(factor: nat) | Sum(addend: nat) | Square | Unknown(operator: char)

  /** The new worry value; an unknown operator turns every item into 1. */
  function Apply(op: Operation, item: nat): nat
  {
    match op
    case Sum(v) => item + v
    case Mul(v) => item * v
    case Square => item * item
    case Unknown(_) => 1
  }

  /** Builds the operation of `new = old <operator> <operand>`; `None` is a failed
      `u64` parse (an `unwrap` panic). */
  function OperationOf(operator: char, operand: string): (r: Option<Operation>)
    ensures r == Some(Square) <==> operator == '*' && operand == "old"
    ensures operator == '*' && operand != "old" ==>
      (r.Some? <==> ParseU64(operand).Some?) && (r.Some? ==> r.value == Mul(ParseU64(operand).value))
    ensures operator == '+' ==>
      (r.Some? <==> ParseU64(operand).Some?) && (r.Some? ==> r.value == Sum(ParseU64(operand).value))
    ensures operator != '*' && operator != '+' ==> r == Some(Unknown(operator))
  {
    if operator == '*' then
      if operand == "old" then Some(Square)
      else match ParseU64(operand)
        case Some(n) => Some(Mul(n))
        case None => None
    else if operator == '+' then
      match ParseU64(operand)
      case Some(n) => Some(Sum(n))
      case None => None
    else Some(Unknown(operator))
  }

  /** The operand of a known operation fits in a `u64`. */
  predicate OperandFits(op: Operation)
  {
    match op
    case Mul(v) => v <= U64_MAX
    case Sum(v) => v <= U64_MAX
    case _ => true
  }

  /** The operator and operand that describe a known operation. */
  function OperationText(op: Operation): (char, string)
    requires !op.Unknown?
  {
    match op
    case Mul(v) => ('*', ShowNat(v))
    case Sum(v) => ('+', ShowNat(v))
    case Square => ('*', "old")
  }

  /** Reading back the description of an operation gives the operation. */
  lemma OperationOfText(op: Operation)
    requires !op.Unknown? && OperandFits(op)
    ensures OperationOf(OperationText(op).0, OperationText(op).1) == Some(op)
  {
    match op
    case Mul(v) =>
      ParseShowU64(v);
      assert ShowNat(v) != "old" by { assert IsDigit(ShowNat(v)[0]); }
    case Sum(v) => ParseShowU64(v);
    case Square =>
  }

  /** What a monkey block describes. */
  datatype MonkeyNotes = MonkeyNotes(name: string, items: seq<nat>, op: Operation, test: nat, nextMonkey: seq<nat>)

  predicate IsWordChar(c: char) { IsDigit(c) || 'a' <= c <= 'z' || 'A' <= c <= 'Z' || c == '_' }

  /** The item list syntax `(\d+,? ?)+`: digits, each run optionally followed by a
      comma and optionally by a space. */
  predicate IsItemList(s: string)
  {
    s != [] && IsDigit(s[0]) && forall i :: 0 < i < |s| ==> ItemListStep(s[i - 1], s[i])
  }

  /** A character that may follow `previous` in an item list. */
  predicate ItemListStep(previous: char, c: char)
  {
    IsDigit(c) || (c == ',' && IsDigit(previous)) || (c == ' ' && (IsDigit(previous) || previous == ','))
  }

  /** The starting items: commas removed, then split on single spaces, each
      read as a `u64`. */
  function ParseItems(s: string): (r: Option<seq<nat>>)
    ensures r.Some? ==> IsItemList(s)
    ensures r.Some? ==> forall k :: 0 <= k < |r.value| ==> r.value[k] <= U64_MAX
  {
    if IsItemList(s) then ParseU64s(Split(Remove(s, ','), ' ')) else None
  }

  /** The operation line after `new = `: `<word> <* or +> <word>`. */
  function ParseOperation(s: string): (r: Option<Operation>)
    ensures r.Some? ==> !r.value.Unknown?
  {
    var parts := Split(s, ' ');
    if |parts| == 3 && parts[0] != [] && parts[2] != [] && |parts[1]| == 1
      && (parts[1][0] == '*' || parts[1][0] == '+')
      && (forall k :: 0 <= k < |parts[0]| ==> IsWordChar(parts[0][k]))
      && (forall k :: 0 <= k < |parts[2]| ==> IsWordChar(parts[2][k]))
    then OperationOf(parts[1][0], parts[2])
    else None
  }

  /** The number that follows `prefix` on a line, as `(\d+)` captures it,
      parsed into an unsigned integer whose largest value is `max`. */
  function NumberAfter(line: string, prefix: string, max: nat): (r: Option<nat>)
    ensures r.Some? <==> prefix <= line && ParseNat(line[|prefix|..]).Some? && ParseNat(line[|prefix|..]).value <= max
    ensures r.Some? ==> ParseNat(line[|prefix|..]) == r
  {
    match AfterPrefix(line, prefix)
    case None => None
    case Some(rest) => if ParseNat(rest).Some? && ParseNat(rest).value <= max then ParseNat(rest) else None
  }

  const ItemsLine := "  Starting items: "
  const OperationPrefix := "  Operation: new = "
  const TestLine := "  Test: divisible by "
  const TrueLine := "    If true: throw to monkey "
  const FalseLine := "    If false: throw to monkey "

  /** The monkey's name from its header line `Monkey <n>:`. */
  function NameOf(line: string): (r: Option<string>)
    ensures r.Some? ==> line == r.value + ":" && "Monkey " <= r.value
  {
    match AfterPrefix(line, "Monkey ")
    case None => None
    case Some(head) =>
      if |head| < 2 || head[|head| - 1] != ':' || ParseNat(head[..|head| - 1]).None? then None
      else
        assert line == "Monkey " + head[..|head| - 1] + ":";
        Some("Monkey " + head[..|head| - 1])
  }

  /** The starting items from the `Starting items:` line. */
  function ItemsOf(line: string): Option<seq<nat>>
  {
    match AfterPrefix(line, ItemsLine)
    case Some(text) => ParseItems(text)
    case None => None
  }

  /** The operation from the `Operation: new =` line. */
  function OperationIn(line: string): Option<Operation>
  {
    match AfterPrefix(line, OperationPrefix)
    case Some(text) => ParseOperation(text)
    case None => None
  }

  /** `Monkey::from`: the six lines of a monkey block. `None` stands for a block
      the pattern does not match or a number that does not parse. */
  function ParseMonkey(block: string): Option<MonkeyNotes>
  {
    ParseLines(Split(block, '\n'))
  }

  /** The monkey that six lines describe. The routing vector is laid out as
      `[false-target, true-target]`. */
  function ParseLines(lines: seq<string>): (r: Option<MonkeyNotes>)
    ensures r.Some? ==>
      |lines| == 6 && |r.value.nextMonkey| == 2 &&
      NameOf(lines[0]) == Some(r.value.name) &&
      ItemsOf(lines[1]) == Some(r.value.items) &&
      OperationIn(lines[2]) == Some(r.value.op) &&
      NumberAfter(lines[3], TestLine, U64_MAX) == Some(r.value.test) &&
      NumberAfter(lines[5], FalseLine, U32_MAX) == Some(r.value.nextMonkey[0]) &&
      NumberAfter(lines[4], TrueLine, U32_MAX) == Some(r.value.nextMonkey[1])
  {
    if |lines| != 6 then None
    else
      var name := NameOf(lines[0]);
      var items := ItemsOf(lines[1]);
      var op := OperationIn(lines[2]);
      var test := NumberAfter(lines[3], TestLine, U64_MAX);
      var onTrue := NumberAfter(lines[4], TrueLine, U32_MAX);
      var onFalse := NumberAfter(lines[5], FalseLine, U32_MAX);
      if name.None? || items.None? || op.None? || test.None? || onTrue.None? || onFalse.None? then None
      else Some(MonkeyNotes(name.value, items.value, op.value, test.value, [onFalse.value, onTrue.value]))
  }

  /** The rules one monkey plays by. */
  datatype MonkeyRule = MonkeyRule(op: Operation, test: nat, nextMonkey: seq<nat>)

  /** Whom an item of worry `item` is thrown to. */
  function Target(r: MonkeyRule, item: nat): nat
    requires r.test > 0 && |r.nextMonkey| == 2
  {
    r.nextMonkey[if item % r.test == 0 then 1 else 0]
  }

  /** The reduction applied after every inspection, as the source writes it. */
  function Relieve(worry: nat, modulus: nat, stressDivider: nat): nat
    requires modulus > 0 && stressDivider > 0
  {
    (worry % modulus) / stressDivider
  }

  /** The fixed part of a game: each monkey's rules, the modulus and the divider. */
  datatype GameSetup = GameSetup(rules: seq<MonkeyRule>, modulus: nat, stressDivider: nat)
  {
    /** Tests are positive, both targets exist and neither is the monkey itself. */
    predicate Valid()
    {
      modulus > 0 && stressDivider > 0 &&
      forall i :: 0 <= i < |rules| ==>
        rules[i].test > 0 && |rules[i].nextMonkey| == 2 &&
        rules[i].nextMonkey[0] < |rules| && rules[i].nextMonkey[1] < |rules| &&
        rules[i].nextMonkey[0] != i && rules[i].nextMonkey[1] != i
    }
  }

  /** What changes during a game: every monkey's queue and inspection count. */
  datatype GameState = GameState(queues: seq<seq<nat>>, counts: seq<nat>)
  {
    predicate Fits(setup: GameSetup)
    {
      |queues| == |setup.rules| && |counts| == |setup.rules|
    }
  }

  /** Monkey `m` inspects the item at the front of its queue and throws it. */
  function Inspect(setup: GameSetup, s: GameState, m: nat): (t: GameState)
    requires setup.Valid() && s.Fits(setup) && m < |setup.rules| && s.queues[m] != []
    ensures t.Fits(setup)
  {
    var item := Relieve(Apply(setup.rules[m].op, s.queues[m][0]), setup.modulus, setup.stressDivider);
    var next := Target(setup.rules[m], item);
    GameState(s.queues[m := s.queues[m][1..]][next := s.queues[next] + [item]],
          s.counts[m := s.counts[m] + 1])
  }

  /** Monkey `m` inspects items until its queue is empty. */
  function Turn(setup: GameSetup, s: GameState, m: nat): (t: GameState)
    requires setup.Valid() && s.Fits(setup) && m < |setup.rules|
    ensures t.Fits(setup)
    decreases |s.queues[m]|
  {
    if s.queues[m] == [] then s else Turn(setup, Inspect(setup, s, m), m)
  }

  /** The turns of monkeys `m`, `m + 1`, ... in index order. */
  function TurnsFrom(setup: GameSetup, s: GameState, m: nat): (t: GameState)
    requires setup.Valid() && s.Fits(setup) && m <= |setup.rules|
    ensures t.Fits(setup)
    decreases |setup.rules| - m
  {
    if m == |setup.rules| then s else TurnsFrom(setup, Turn(setup, s, m), m + 1)
  }

  /** One round: every monkey takes its turn, in index order. */
  function Round(setup: GameSetup, s: GameState): (t: GameState)
    requires setup.Valid() && s.Fits(setup)
    ensures t.Fits(setup)
  {
    TurnsFrom(setup, s, 0)
  }

  /** `n` rounds in a row. */
  function Rounds(setup: GameSetup, s: GameState, n: nat): (t: GameState)
    requires setup.Valid() && s.Fits(setup)
    ensures t.Fits(setup)
    decreases n
  {
    if n == 0 then s else Rounds(setup, Round(setup, s), n - 1)
  }

  /** Number of items held by all monkeys together. */
  function ItemTotal(queues: seq<seq<nat>>): nat
  {
    if queues == [] then 0 else ItemTotal(queues[..|queues| - 1]) + |queues[|queues| - 1]|
  }

  lemma {:induction false} ItemTotalUpdate(queues: seq<seq<nat>>, i: nat, q: seq<nat>)
    requires i < |queues|
    ensures ItemTotal(queues[i := q]) + |queues[i]| == ItemTotal(queues) + |q|
    decreases |queues|
  {
    var n := |queues| - 1;
    if i < n {
      assert queues[i := q][..n] == queues[..n][i := q];
      ItemTotalUpdate(queues[..n], i, q);
    } else {
      assert queues[i := q][..n] == queues[..n];
    }
  }

  /** An inspection moves one item: the number of items in play does not change. */
  lemma InspectConserves(setup: GameSetup, s: GameState, m: nat)
    requires setup.Valid() && s.Fits(setup) && m < |setup.rules| && s.queues[m] != []
    ensures ItemTotal(Inspect(setup, s, m).queues) == ItemTotal(s.queues)
  {
    var item := Relieve(Apply(setup.rules[m].op, s.queues[m][0]), setup.modulus, setup.stressDivider);
    var next := Target(setup.rules[m], item);
    var q1 := s.queues[m := s.queues[m][1..]];
    ItemTotalUpdate(s.queues, m, s.queues[m][1..]);
    ItemTotalUpdate(q1, next, s.queues[next] + [item]);
  }

  /** Inspections only ever raise counts: exactly monkey `m` gains one. */
  lemma InspectCounts(setup: GameSetup, s: GameState, m: nat)
    requires setup.Valid() && s.Fits(setup) && m < |setup.rules| && s.queues[m] != []
    ensures Inspect(setup, s, m).counts[m] == s.counts[m] + 1
    ensures forall i :: 0 <= i < |s.counts| && i != m ==> Inspect(setup, s, m).counts[i] == s.counts[i]
  {
  }

  /** A turn empties the monkey's queue, inspects exactly the items it held, keeps
      every other count, and only appends to the other queues. */
  lemma {:induction false} TurnEffect(setup: GameSetup, s: GameState, m: nat)
    requires setup.Valid() && s.Fits(setup) && m < |setup.rules|
    ensures Turn(setup, s, m).queues[m] == []
    ensures Turn(setup, s, m).counts[m] == s.counts[m] + |s.queues[m]|
    ensures forall i :: 0 <= i < |s.counts| && i != m ==> Turn(setup, s, m).counts[i] == s.counts[i]
    ensures forall i :: 0 <= i < |s.queues| && i != m ==> s.queues[i] <= Turn(setup, s, m).queues[i]
    ensures ItemTotal(Turn(setup, s, m).queues) == ItemTotal(s.queues)
    decreases |s.queues[m]|
  {
    if s.queues[m] != [] {
      var s' := Inspect(setup, s, m);
      InspectConserves(setup, s, m);
      assert |s'.queues[m]| == |s.queues[m]| - 1;
      TurnEffect(setup, s', m);
      forall i | 0 <= i < |s.queues| && i != m
        ensures s.queues[i] <= Turn(setup, s, m).queues[i]
      {
        assert s.queues[i] <= s'.queues[i];
      }
    }
  }

  /** A round never lowers a count and never loses an item. */
  lemma {:induction false} TurnsFromEffect(setup: GameSetup, s: GameState, m: nat)
    requires setup.Valid() && s.Fits(setup) && m <= |setup.rules|
    ensures forall i :: 0 <= i < |s.counts| ==> s.counts[i] <= TurnsFrom(setup, s, m).counts[i]
    ensures ItemTotal(TurnsFrom(setup, s, m).queues) == ItemTotal(s.queues)
    decreases |setup.rules| - m
  {
    if m < |setup.rules| {
      var s' := Turn(setup, s, m);
      TurnEffect(setup, s, m);
      assert forall i :: 0 <= i < |s.counts| ==> s.counts[i] <= s'.counts[i];
      TurnsFromEffect(setup, s', m + 1);
      var t := TurnsFrom(setup, s', m + 1);
      assert TurnsFrom(setup, s, m) == t;
      assert ItemTotal(t.queues) == ItemTotal(s'.queues) == ItemTotal(s.queues);
    }
  }

  /** Over any number of rounds counts only grow and the items in play are conserved. */
  lemma {:induction false} RoundsEffect(setup: GameSetup, s: GameState, n: nat)
    requires setup.Valid() && s.Fits(setup)
    ensures forall i :: 0 <= i < |s.counts| ==> s.counts[i] <= Rounds(setup, s, n).counts[i]
    ensures ItemTotal(Rounds(setup, s, n).queues) == ItemTotal(s.queues)
    decreases n
  {
    if n > 0 {
      TurnsFromEffect(setup, s, 0);
      RoundsEffect(setup, Round(setup, s), n - 1);
    }
  }

  function Tests(rules: seq<MonkeyRule>): (tests: seq<nat>)
    ensures |tests| == |rules| && forall i :: 0 <= i < |rules| ==> tests[i] == rules[i].test
  {
    if rules == [] then [] else Tests(rules[..|rules| - 1]) + [rules[|rules| - 1].test]
  }

  /** Reducing modulo the product of all tests keeps every monkey's routing: with
      a divider of 1 an item goes where its unreduced worry value would go. */
  lemma ModulusKeepsRouting(rules: seq<MonkeyRule>, i: nat, worry: nat)
    requires i < |rules| && rules[i].test > 0 && |rules[i].nextMonkey| == 2
    requires Arith.Product(Tests(rules)) > 0
    ensures Target(rules[i], Relieve(worry, Arith.Product(Tests(rules)), 1)) == Target(rules[i], worry)
  {
    var k := Arith.ProductFactor(Tests(rules), i);
    Arith.ModOfMultiple(worry, rules[i].test, k);
  }

  /** With a divider other than 1 the reduction does change routing: three
      monkeys testing 2, 3 and 5 have modulus 30, and worry 33 relieved by 3 is 1
      after the reduction but 11 without it; a test of 11 would tell them apart.
      Here, with tests 2 and 3 and worry 9: `(9 % 6) / 3 == 1` is not divisible by
      3, while `9 / 3 == 3` is. */
  lemma ReductionChangesRoutingWithDivider()
    ensures var rule := MonkeyRule(Mul(1), 3, [0, 1]);
      Arith.Product(Tests([MonkeyRule(Mul(1), 2, [1, 1]), rule])) == 6 &&
      Target(rule, Relieve(9, 6, 3)) != Target(rule, 9 / 3)
  {
    assert Tests([MonkeyRule(Mul(1), 2, [1, 1]), MonkeyRule(Mul(1), 3, [0, 1])]) == [2, 3];
    assert [2, 3][..1] == [2];
    assert Arith.Product([2]) == 2 by { assert [2][..0] == []; }
  }

  /** The reduction the source evidently intends: relieve by the divider first,
      and reduce by the modulus only where that keeps routing, with a divider of 1. */
  function IntendedRelieve(worry: nat, modulus: nat, stressDivider: nat): nat
    requires modulus > 0 && stressDivider > 0
  {
    if stressDivider == 1 then worry % modulus else worry / stressDivider
  }

  /** The intended reduction routes every item as the unreduced game would. */
  lemma IntendedRelieveKeepsRouting(rules: seq<MonkeyRule>, i: nat, worry: nat, stressDivider: nat)
    requires i < |rules| && rules[i].test > 0 && |rules[i].nextMonkey| == 2
    requires Arith.Product(Tests(rules)) > 0 && stressDivider > 0
    ensures Target(rules[i], IntendedRelieve(worry, Arith.Product(Tests(rules)), stressDivider))
         == Target(rules[i], worry / stressDivider)
  {
    if stressDivider == 1 {
      ModulusKeepsRouting(rules, i, worry);
    }
  }

  /** A monkey and its queue of items. */
  class Monkey {
    const name: string
    var items: seq<nat>
    const op: Operation
    const test: nat
    const nextMonkey: seq<nat>
    var itemsCount: nat

    /** A monkey as a block describes it, with nothing inspected yet. */
    constructor (notes: MonkeyNotes)
      ensures name == notes.name && items == notes.items && op == notes.op
      ensures test == notes.test && nextMonkey == notes.nextMonkey && itemsCount == 0
    {
      name := notes.name;
      items := notes.items;
      op := notes.op;
      test := notes.test;
      nextMonkey := notes.nextMonkey;
      itemsCount := 0;
    }

    function Rule(): MonkeyRule { MonkeyRule(op, test, nextMonkey) }

    /** Puts an item at the back of the queue. */
    method AddItem(item: nat)
      modifies this`items
      ensures items == old(items) + [item]
    {
      items := items + [item];
    }

    /** Takes the front item and returns its new worry value, counting the
        inspection; an empty queue gives `None` and changes nothing. */
    method GetItem() returns (item: Option<nat>)
      modifies this`items, this`itemsCount
      ensures old(items) == [] ==> item == None && items == old(items) && itemsCount == old(itemsCount)
      ensures old(items) != [] ==>
        item == Some(Apply(op, old(items)[0])) && items == old(items)[1..] && itemsCount == old(itemsCount) + 1
    {
      if items == [] {
        return None;
      }
      var front := items[0];
      items := items[1..];
      itemsCount := itemsCount + 1;
      item := Some(Apply(op, front));
    }

    /** The true-target when the test divides the item, the false-target
        otherwise; `None` for a test of 0, where `item % self.test` panics. */
    function GetNextMonkey(item: nat): (next: Option<nat>)
      requires |nextMonkey| == 2
      ensures next.None? <==> test == 0
      ensures test > 0 && item % test == 0 ==> next == Some(nextMonkey[1])
      ensures test > 0 && item % test != 0 ==> next == Some(nextMonkey[0])
    {
      if test == 0 then None else Some(Target(Rule(), item))
    }
  }

  /** The game: the monkeys, the round counter, and the worry reduction. */
  class KeepAwayGame {
    const monkeys: seq<Monkey>
    const totalRounds: nat
    var currentRound: nat
    const stressDivider: nat
    const modulus: nat

    function Setup(): GameSetup
    {
      GameSetup(seq(|monkeys|, i requires 0 <= i < |monkeys| => monkeys[i].Rule()), modulus, stressDivider)
    }

    /** The monkeys are distinct objects, their rules are playable, and the modulus
        is the product of all tests. */
    ghost predicate Valid()
    {
      (forall i, j :: 0 <= i < j < |monkeys| ==> monkeys[i] != monkeys[j]) &&
      Setup().Valid() && modulus == Arith.Product(Tests(Setup().rules))
    }

    /** The queues and counts of all monkeys. */
    ghost function State(): GameState
      reads monkeys
    {
      GameState(seq(|monkeys|, i reads monkeys requires 0 <= i < |monkeys| => monkeys[i].items),
                     seq(|monkeys|, i reads monkeys requires 0 <= i < |monkeys| => monkeys[i].itemsCount))
    }

    /** A game of `totalRounds` rounds; the modulus is the product of all tests. */
    constructor (monkeys: seq<Monkey>, totalRounds: nat, stressDivider: nat)
      requires forall i, j :: 0 <= i < j < |monkeys| ==> monkeys[i] != monkeys[j]
      requires forall i :: 0 <= i < |monkeys| ==>
        monkeys[i].test > 0 && |monkeys[i].nextMonkey| == 2 &&
        monkeys[i].nextMonkey[0] < |monkeys| && monkeys[i].nextMonkey[1] < |monkeys| &&
        monkeys[i].nextMonkey[0] != i && monkeys[i].nextMonkey[1] != i
      requires stressDivider > 0
      ensures this.monkeys == monkeys && this.totalRounds == totalRounds && this.stressDivider == stressDivider
      ensures currentRound == 0 && Valid()
    {
      this.monkeys := monkeys;
      this.totalRounds := totalRounds;
      this.stressDivider := stressDivider;
      currentRound := 0;
      var rules := seq(|monkeys|, i requires 0 <= i < |monkeys| => monkeys[i].Rule());
      var tests := Tests(rules);
      Arith.ProductPositive(tests);
      modulus := Arith.Product(tests);
    }

    /** Monkey `m` inspects and throws its front item; `false` when it has none. */
    method ProcessMonkey(m: nat) returns (ok: bool)
      requires Valid() && m < |monkeys|
      modifies monkeys
      ensures ok == (old(State()).queues[m] != [])
      ensures ok ==> State() == Inspect(Setup(), old(State()), m)
      ensures !ok ==> State() == old(State())
    {
      ghost var s := State();
      var item := Take(m);
      if item.None? {
        return false;
      }
      var value := (item.value % modulus) / stressDivider;
      assert Setup().rules[m] == monkeys[m].Rule();
      var next := monkeys[m].GetNextMonkey(value).value;
      Give(next, value);
      ok := true;
    }

    /** Monkey `m` takes its front item, counting the inspection, and
        returns its worry value after the operation; `None` when it has
        none. */
    method Take(m: nat) returns (item: Option<nat>)
      requires Valid() && m < |monkeys|
      modifies monkeys[m]
      ensures old(State()).queues[m] == [] ==> item == None && State() == old(State())
      ensures old(State()).queues[m] != [] ==>
        item == Some(Apply(Setup().rules[m].op, old(State()).queues[m][0])) &&
        State() == GameState(old(State()).queues[m := old(State()).queues[m][1..]], old(State()).counts[m := old(State()).counts[m] + 1])
    {
      item := monkeys[m].GetItem();
    }

    /** Monkey `next` receives an item at the back of its queue. */
    method Give(next: nat, value: nat)
      requires Valid() && next < |monkeys|
      modifies monkeys[next]
      ensures State() == GameState(old(State()).queues[next := old(State()).queues[next] + [value]], old(State()).counts)
    {
      monkeys[next].AddItem(value);
    }

    /** Monkey `m` processes items until it has none left. */
    method ProcessTurn(m: nat)
      requires Valid() && m < |monkeys|
      modifies monkeys
      ensures State() == Turn(Setup(), old(State()), m)
    {
      var more := true;
      while more
        invariant Turn(Setup(), State(), m) == Turn(Setup(), old(State()), m)
        invariant !more ==> State().queues[m] == []
        decreases |State().queues[m]| + (if more then 1 else 0)
      {
        more := ProcessMonkey(m);
      }
    }

    /** One round, unless all rounds are played: then `false` and nothing changes. */
    method ProcessRound() returns (ok: bool)
      requires Valid()
      modifies this, monkeys
      ensures ok == (old(currentRound) < totalRounds)
      ensures ok ==> State() == Round(Setup(), old(State())) && currentRound == old(currentRound) + 1
      ensures !ok ==> State() == old(State()) && currentRound == old(currentRound)
    {
      if currentRound >= totalRounds {
        return false;
      }
      var m := 0;
      while m < |monkeys|
        invariant 0 <= m <= |monkeys| && currentRound == old(currentRound)
        invariant TurnsFrom(Setup(), State(), m) == Round(Setup(), old(State()))
      {
        ProcessTurn(m);
        m := m + 1;
      }
      currentRound := currentRound + 1;
      ok := true;
    }

    /** Rounds still to be played. */
    function RoundsLeft(): nat
      reads this
    {
      if currentRound < totalRounds then totalRounds - currentRound else 0
    }

    /** Plays the rounds that are left, as the solver does for both parts. */
    method Play()
      requires Valid()
      modifies this, monkeys
      ensures RoundsLeft() == 0 && currentRound == old(currentRound) + old(RoundsLeft())
      ensures State() == Rounds(Setup(), old(State()), old(RoundsLeft()))
    {
      var more := true;
      while more
        invariant currentRound + RoundsLeft() == old(currentRound) + old(RoundsLeft())
        invariant Rounds(Setup(), State(), RoundsLeft()) == Rounds(Setup(), old(State()), old(RoundsLeft()))
        invariant !more ==> RoundsLeft() == 0
        decreases RoundsLeft() + (if more then 1 else 0)
      {
        more := ProcessRound();
      }
    }

    /** The inspection count of every monkey. */
    function Counts(): (counts: seq<nat>)
      reads monkeys
      ensures |counts| == |monkeys| && forall i :: 0 <= i < |monkeys| ==> counts[i] == monkeys[i].itemsCount
    {
      seq(|monkeys|, i reads monkeys requires 0 <= i < |monkeys| => monkeys[i].itemsCount)
    }

    /** `get_monkeys_total_business`: the product of the two largest counts;
        `None` (the panic on `items_count[1]`) with fewer than two monkeys. */
    method GetMonkeysTotalBusiness() returns (business: Option<nat>)
      ensures |monkeys| < 2 ==> business == None
      ensures |monkeys| >= 2 ==> business == Some(Business(Counts()))
    {
      var counts := Counts();
      if |counts| < 2 {
        return None;
      }
      var (first, second) := TopTwo(counts);
      business := Some(counts[first] * counts[second]);
    }
  }

  /** The positions of the largest and of the next largest count: what the
      first two entries are once the counts are sorted in decreasing order. */
  function TopTwo(counts: seq<nat>): (r: (nat, nat))
    requires |counts| >= 2
    ensures r.0 < |counts| && r.1 < |counts| && r.0 != r.1
    ensures forall k :: 0 <= k < |counts| ==> counts[k] <= counts[r.0]
    ensures forall k :: 0 <= k < |counts| && k != r.0 ==> counts[k] <= counts[r.1]
  {
    if |counts| == 2 then (if counts[1] > counts[0] then (1, 0) else (0, 1))
    else
      var last := |counts| - 1;
      var (first, second) := TopTwo(counts[..last]);
      if counts[last] > counts[first] then (last, first)
      else if counts[last] > counts[second] then (first, last)
      else (first, second)
  }

  /** `i` holds a largest count and `j` a largest count among the others: the
      first two entries once the counts are sorted in decreasing order. */
  predicate IsTopPair(counts: seq<nat>, i: nat, j: nat)
  {
    i < |counts| && j < |counts| && i != j &&
    (forall k :: 0 <= k < |counts| ==> counts[k] <= counts[i]) &&
    (forall k :: 0 <= k < |counts| && k != i ==> counts[k] <= counts[j])
  }

  /** The level of monkey business: the largest count times the largest of the
      others. */
  function Business(counts: seq<nat>): (r: nat)
    requires |counts| >= 2
  {
    var (first, second) := TopTwo(counts);
    counts[first] * counts[second]
  }

  /** The level of business is the product of the counts at a top pair, and
      every top pair has the same product, however ties are broken. */
  lemma BusinessOfTopPair(counts: seq<nat>, i: nat, j: nat)
    requires |counts| >= 2 && IsTopPair(counts, i, j)
    ensures Business(counts) == counts[i] * counts[j]
  {
    var (first, second) := TopTwo(counts);
    assert counts[first] == counts[i];
    if j == first {
      assert counts[second] == counts[i];
      assert counts[j] == counts[first];
    } else if second == i {
      assert counts[j] == counts[first];
    } else {
      assert counts[second] == counts[j];
    }
    MulRearrange(counts[first], counts[second], counts[i], counts[j]);
  }

  lemma MulRearrange(a: nat, b: nat, c: nat, d: nat)
    requires (a == c && b == d) || (a == d && b == c)
    ensures a * b == c * d
  {
  }

  /** The items as a block lists them: numbers separated by `", "`. */
  function ItemsText(items: seq<nat>): string
    requires items != []
  {
    if |items| == 1 then ShowNat(items[0]) else ShowNat(items[0]) + ", " + ItemsText(items[1..])
  }

  function Shown(items: seq<nat>): (parts: seq<string>)
    ensures |parts| == |items| && forall i :: 0 <= i < |items| ==> parts[i] == ShowNat(items[i])
  {
    seq(|items|, i requires 0 <= i < |items| => ShowNat(items[i]))
  }

  lemma {:induction false} ItemsTextWithoutCommas(items: seq<nat>)
    requires items != []
    ensures Remove(ItemsText(items), ',') == Join(Shown(items), ' ')
  {
    var first := ShowNat(items[0]);
    assert ',' !in first by { assert forall k :: 0 <= k < |first| ==> IsDigit(first[k]); }
    RemoveAbsent(first, ',');
    if |items| > 1 {
      ItemsTextWithoutCommas(items[1..]);
      RemoveConcat(first + ", ", ItemsText(items[1..]), ',');
      RemoveConcat(first, ", ", ',');
      assert Remove(", ", ',') == " ";
      assert Shown(items)[1..] == Shown(items[1..]);
    }
  }

  lemma {:induction false} ItemsTextIsItemList(items: seq<nat>)
    requires items != []
    ensures IsItemList(ItemsText(items))
  {
    var first := ShowNat(items[0]);
    if |items| > 1 {
      var rest := ItemsText(items[1..]);
      ItemsTextIsItemList(items[1..]);
      var s := first + ", " + rest;
      forall i | 0 < i < |s|
        ensures ItemListStep(s[i - 1], s[i])
      {
        if i < |first| {
          assert s[i] == first[i];
        } else if i == |first| {
          assert s[i - 1] == first[|first| - 1];
        } else if i > |first| + 1 {
          assert s[i] == rest[i - |first| - 2];
          if i > |first| + 2 {
            assert s[i - 1] == rest[i - |first| - 3];
          }
        }
      }
    }
  }

  lemma {:induction false} ParseU64sShown(items: seq<nat>)
    requires forall k :: 0 <= k < |items| ==> items[k] <= U64_MAX
    ensures ParseU64s(Shown(items)) == Some(items)
  {
    if items != [] {
      ParseShowU64(items[0]);
      assert Shown(items)[1..] == Shown(items[1..]);
      ParseU64sShown(items[1..]);
      assert [items[0]] + items[1..] == items;
    }
  }

  /** Writing a non-empty item list and parsing it gives the list back. */
  lemma ParseItemsText(items: seq<nat>)
    requires items != [] && forall k :: 0 <= k < |items| ==> items[k] <= U64_MAX
    ensures ParseItems(ItemsText(items)) == Some(items)
  {
    ItemsTextIsItemList(items);
    ItemsTextWithoutCommas(items);
    forall i | 0 <= i < |Shown(items)|
      ensures ' ' !in Shown(items)[i]
    {
      var t := ShowNat(items[i]);
      assert forall k :: 0 <= k < |t| ==> IsDigit(t[k]);
    }
    SplitJoin(Shown(items), ' ');
    ParseU64sShown(items);
  }

  /** The operation line of a block: `old <operator> <operand>`. */
  function OperationLine(op: Operation): string
    requires !op.Unknown?
  {
    "old " + [OperationText(op).0] + " " + OperationText(op).1
  }

  lemma SplitOperationLine(left: string, c: char, right: string)
    requires ' ' !in left && ' ' !in right && c != ' '
    ensures Split(left + " " + [c] + " " + right, ' ') == [left, [c], right]
  {
    var line := left + " " + [c] + " " + right;
    assert line[..|left|] == left;
    SplitAt(line, ' ', |left|);
    var tail := line[|left| + 1..];
    assert tail == [c] + " " + right;
    assert tail[..1] == [c];
    SplitAt(tail, ' ', 1);
    assert tail[2..] == right;
    SplitWithoutSeparator(right, ' ');
  }

  /** The operation line of a known operation parses back to it. */
  lemma ParseOperationLine(op: Operation)
    requires !op.Unknown? && OperandFits(op)
    ensures ParseOperation(OperationLine(op)) == Some(op)
  {
    var (c, operand) := OperationText(op);
    OperationLineWords(op);
    OldIsWord();
    OperandIsWord(op);
    ParseOperationWords(OperationLine(op), "old", c, operand);
    OperationOfText(op);
  }

  lemma OldIsWord()
    ensures forall k :: 0 <= k < |"old"| ==> IsWordChar("old"[k])
  {
    assert "old" == ['o', 'l', 'd'];
  }

  lemma OperandIsWord(op: Operation)
    requires !op.Unknown?
    ensures OperationText(op).1 != []
    ensures forall k :: 0 <= k < |OperationText(op).1| ==> IsWordChar(OperationText(op).1[k])
  {
    if op.Square? {
      OldIsWord();
    } else {
      var digits := ShowNat(if op.Mul? then op.factor else op.addend);
      assert forall k :: 0 <= k < |digits| ==> IsDigit(digits[k]);
    }
  }

  /** A line of three words, the middle one `*` or `+`, parses as `OperationOf`
      the sign and the last word. */
  lemma ParseOperationWords(s: string, left: string, c: char, right: string)
    requires Split(s, ' ') == [left, [c], right] && left != [] && right != [] && (c == '*' || c == '+')
    requires forall k :: 0 <= k < |left| ==> IsWordChar(left[k])
    requires forall k :: 0 <= k < |right| ==> IsWordChar(right[k])
    ensures ParseOperation(s) == OperationOf(c, right)
  {
  }

  lemma OperationLineWords(op: Operation)
    requires !op.Unknown?
    ensures Split(OperationLine(op), ' ') == ["old", [OperationText(op).0], OperationText(op).1]
  {
    var (c, operand) := OperationText(op);
    assert forall k :: 0 <= k < |operand| ==> operand[k] != ' ';
    assert ' ' !in operand;
    assert OperationLine(op) == "old" + " " + [c] + " " + operand;
    SplitOperationLine("old", c, operand);
  }

  /** The numbers of the notes fit the source's fields: items, operand and
      test in a `u64`, the targets in a `u32`. */
  predicate InWidths(notes: MonkeyNotes)
  {
    (forall k :: 0 <= k < |notes.items| ==> notes.items[k] <= U64_MAX) &&
    OperandFits(notes.op) && notes.test <= U64_MAX &&
    forall k :: 0 <= k < |notes.nextMonkey| ==> notes.nextMonkey[k] <= U32_MAX
  }

  /** The lines of the block that describes monkey `id`. */
  function BlockLines(id: nat, notes: MonkeyNotes): seq<string>
    requires notes.items != [] && !notes.op.Unknown? && |notes.nextMonkey| == 2
  {
    ["Monkey " + ShowNat(id) + ":",
     ItemsLine + ItemsText(notes.items),
     OperationPrefix + OperationLine(notes.op),
     TestLine + ShowNat(notes.test),
     TrueLine + ShowNat(notes.nextMonkey[1]),
     FalseLine + ShowNat(notes.nextMonkey[0])]
  }

  lemma SplitBlock(id: nat, notes: MonkeyNotes)
    requires notes.items != [] && !notes.op.Unknown? && |notes.nextMonkey| == 2
    ensures Split(Join(BlockLines(id, notes), '\n'), '\n') == BlockLines(id, notes)
  {
    NoNewlineInLines(id, notes);
    SplitJoin(BlockLines(id, notes), '\n');
  }

  lemma NoNewlineInLines(id: nat, notes: MonkeyNotes)
    requires notes.items != [] && !notes.op.Unknown? && |notes.nextMonkey| == 2
    ensures forall i :: 0 <= i < 6 ==> '\n' !in BlockLines(id, notes)[i]
  {
    var lines := BlockLines(id, notes);
    ShowNatNoNewline(id);
    NoNewlineConcat("Monkey " + ShowNat(id), ":");
    NoNewlineConcat("Monkey ", ShowNat(id));
    ItemsTextNoNewline(notes.items);
    NoNewlineConcat(ItemsLine, ItemsText(notes.items));
    OperationLineNoNewline(notes.op);
    NoNewlineConcat(OperationPrefix, OperationLine(notes.op));
    ShowNatNoNewline(notes.test);
    NoNewlineConcat(TestLine, ShowNat(notes.test));
    ShowNatNoNewline(notes.nextMonkey[1]);
    NoNewlineConcat(TrueLine, ShowNat(notes.nextMonkey[1]));
    ShowNatNoNewline(notes.nextMonkey[0]);
    NoNewlineConcat(FalseLine, ShowNat(notes.nextMonkey[0]));
  }

  lemma NoNewlineConcat(a: string, b: string)
    requires '\n' !in a && '\n' !in b
    ensures '\n' !in a + b
  {
  }

  lemma ShowNatNoNewline(n: nat)
    ensures '\n' !in ShowNat(n)
  {
    var t := ShowNat(n);
    assert forall k :: 0 <= k < |t| ==> IsDigit(t[k]);
  }

  lemma ItemsTextNoNewline(items: seq<nat>)
    requires items != []
    ensures '\n' !in ItemsText(items)
  {
    ItemsTextIsItemList(items);
    var text := ItemsText(items);
    forall k | 0 <= k < |text|
      ensures text[k] != '\n'
    {
      if k > 0 {
        assert ItemListStep(text[k - 1], text[k]);
      }
    }
  }

  lemma OperationLineNoNewline(op: Operation)
    requires !op.Unknown?
    ensures '\n' !in OperationLine(op)
  {
    var (c, operand) := OperationText(op);
    assert forall k :: 0 <= k < |operand| ==> operand[k] != '\n';
    assert OperationLine(op) == "old " + [c] + " " + operand;
  }

  lemma NumberAfterShown(prefix: string, n: nat, max: nat)
    requires n <= max
    ensures NumberAfter(prefix + ShowNat(n), prefix, max) == Some(n)
  {
    AfterPrefixConcat(prefix, ShowNat(n));
    ParseShowNat(n);
  }

  lemma NameOfHeader(id: nat)
    ensures NameOf("Monkey " + ShowNat(id) + ":") == Some("Monkey " + ShowNat(id))
  {
    var head := ShowNat(id) + ":";
    assert "Monkey " + ShowNat(id) + ":" == "Monkey " + head;
    AfterPrefixConcat("Monkey ", head);
    assert head[..|head| - 1] == ShowNat(id);
    ParseShowNat(id);
  }

  lemma ItemsOfLine(items: seq<nat>)
    requires items != [] && forall k :: 0 <= k < |items| ==> items[k] <= U64_MAX
    ensures ItemsOf(ItemsLine + ItemsText(items)) == Some(items)
  {
    AfterPrefixConcat(ItemsLine, ItemsText(items));
    ParseItemsText(items);
  }

  lemma OperationInLine(op: Operation)
    requires !op.Unknown? && OperandFits(op)
    ensures OperationIn(OperationPrefix + OperationLine(op)) == Some(op)
  {
    AfterPrefixConcat(OperationPrefix, OperationLine(op));
    ParseOperationLine(op);
  }

  lemma BlockTextFields(id: nat, notes: MonkeyNotes)
    requires notes.items != [] && !notes.op.Unknown? && |notes.nextMonkey| == 2
    requires InWidths(notes)
    requires notes.name == "Monkey " + ShowNat(id)
    ensures var lines := BlockLines(id, notes);
      NameOf(lines[0]) == Some(notes.name) &&
      ItemsOf(lines[1]) == Some(notes.items) &&
      OperationIn(lines[2]) == Some(notes.op)
  {
    var lines := BlockLines(id, notes);
    assert lines[0] == "Monkey " + ShowNat(id) + ":";
    NameOfHeader(id);
    assert lines[1] == ItemsLine + ItemsText(notes.items);
    ItemsOfLine(notes.items);
    assert lines[2] == OperationPrefix + OperationLine(notes.op);
    OperationInLine(notes.op);
  }

  lemma BlockNumberFields(id: nat, notes: MonkeyNotes)
    requires notes.items != [] && !notes.op.Unknown? && |notes.nextMonkey| == 2
    requires InWidths(notes)
    ensures var lines := BlockLines(id, notes);
      NumberAfter(lines[3], TestLine, U64_MAX) == Some(notes.test) &&
      NumberAfter(lines[4], TrueLine, U32_MAX) == Some(notes.nextMonkey[1]) &&
      NumberAfter(lines[5], FalseLine, U32_MAX) == Some(notes.nextMonkey[0])
  {
    NumberAfterShown(TestLine, notes.test, U64_MAX);
    NumberAfterShown(TrueLine, notes.nextMonkey[1], U32_MAX);
    NumberAfterShown(FalseLine, notes.nextMonkey[0], U32_MAX);
  }

  lemma ParseBlockLines(id: nat, notes: MonkeyNotes)
    requires notes.items != [] && !notes.op.Unknown? && |notes.nextMonkey| == 2
    requires InWidths(notes)
    requires notes.name == "Monkey " + ShowNat(id)
    ensures ParseLines(BlockLines(id, notes)) == Some(notes)
  {
    BlockTextFields(id, notes);
    BlockNumberFields(id, notes);
    ParseLinesOf(BlockLines(id, notes), notes);
  }

  /** Six lines whose fields read as the notes parse to the notes. */
  lemma ParseLinesOf(lines: seq<string>, notes: MonkeyNotes)
    requires |lines| == 6 && |notes.nextMonkey| == 2
    requires NameOf(lines[0]) == Some(notes.name) && ItemsOf(lines[1]) == Some(notes.items)
    requires OperationIn(lines[2]) == Some(notes.op) && NumberAfter(lines[3], TestLine, U64_MAX) == Some(notes.test)
    requires NumberAfter(lines[4], TrueLine, U32_MAX) == Some(notes.nextMonkey[1])
    requires NumberAfter(lines[5], FalseLine, U32_MAX) == Some(notes.nextMonkey[0])
    ensures ParseLines(lines) == Some(notes)
  {
    assert [notes.nextMonkey[0], notes.nextMonkey[1]] == notes.nextMonkey;
  }

  /** Writing the block of a monkey and parsing it gives the monkey back, with
      the routing vector in `[false-target, true-target]` order. */
  lemma ParseBlock(id: nat, notes: MonkeyNotes)
    requires notes.items != [] && !notes.op.Unknown? && |notes.nextMonkey| == 2
    requires InWidths(notes)
    requires notes.name == "Monkey " + ShowNat(id)
    ensures ParseMonkey(Join(BlockLines(id, notes), '\n')) == Some(notes)
  {
    SplitBlock(id, notes);
    ParseBlockLines(id, notes);
  }
}
