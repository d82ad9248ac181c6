/** The scratchcards of 2023 day 4: a card line holds, after its colon, the
    winning numbers and the scratched numbers separated by '|'; a card is
    worth 1 for its first scratched number that wins and twice as much for
    every further one. */
module Scratchcards {
  import opened Text

  /** `Scratchcard`: the winning numbers and the numbers scratched. */
  datatype Scratchcard = Scratchcard(winning: seq<nat>, scratched: seq<nat>)

  /** `num_str_to_vec`: the pieces between single spaces that are not
      empty, each read as a `u32`; `None` when one of them is not one. */
  function NumStrToVec(input: string): Option<seq<nat>>
  {
    ParseU32s(NonEmpty(Split(input, ' ')))
  }

  /** Numbers written out with one space between them. */
  function ShowNums(numbers: seq<nat>): string
    requires |numbers| >= 1
  {
    Join(Map(ShowNat, numbers), ' ')
  }

  /** Keeping the non-empty parts of parts that are all non-empty keeps
      them all. */
  lemma {:induction false} NonEmptyKeepsAll(parts: seq<string>)
    requires forall k :: 0 <= k < |parts| ==> parts[k] != []
    ensures NonEmpty(parts) == parts
  {
    if parts != [] {
      NonEmptyKeepsAll(parts[1..]);
      assert parts == [parts[0]] + parts[1..];
    }
  }

  /** Printed numbers that fit in a `u32` parse back. */
  lemma {:induction false} ParseU32sShown(numbers: seq<nat>)
    requires forall k :: 0 <= k < |numbers| ==> numbers[k] <= U32_MAX
    ensures ParseU32s(Map(ShowNat, numbers)) == Some(numbers)
  {
    var shown := Map(ShowNat, numbers);
    forall k | 0 <= k < |numbers|
      ensures ParseU32(shown[k]) == Some(numbers[k])
    {
      MapAt(ShowNat, numbers, k);
      ParseShowNat(numbers[k]);
    }
    var r := ParseU32s(shown);
    assert r.value == numbers;
  }

  /** Numbers of at most 32 bits written out with spaces are read back. */
  lemma NumStrToVecShowNums(numbers: seq<nat>)
    requires |numbers| >= 1
    requires forall k :: 0 <= k < |numbers| ==> numbers[k] <= U32_MAX
    ensures NumStrToVec(ShowNums(numbers)) == Some(numbers)
  {
    var shown := Map(ShowNat, numbers);
    forall k | 0 <= k < |shown|
      ensures ' ' !in shown[k] && shown[k] != []
    {
      MapAt(ShowNat, numbers, k);
      ShowNatHasNoBreak(numbers[k]);
    }
    SplitJoin(shown, ' ');
    NonEmptyKeepsAll(shown);
    ParseU32sShown(numbers);
  }

  /** `Scratchcard::from`: the text split at '|', the first piece the
      winning numbers and the second the scratched ones; a text without '|'
      has no second piece, which panics, as does a number that is not a
      `u32`. Pieces after a second '|' are not read. */
  function FromText(input: string): Option<Scratchcard>
  {
    var pieces := Split(input, '|');
    if |pieces| < 2 then None
    else
      match (NumStrToVec(pieces[0]), NumStrToVec(pieces[1]))
      case (Some(winning), Some(scratched)) => Some(Scratchcard(winning, scratched))
      case _ => None
  }

  /** A card's text read back: the winning numbers, '|' and the scratched
      numbers give the card. */
  lemma FromTextOfParts(winning: string, scratched: string)
    requires '|' !in winning && '|' !in scratched
    ensures FromText(winning + "|" + scratched) ==
      match (NumStrToVec(winning), NumStrToVec(scratched))
      case (Some(w), Some(s)) => Some(Scratchcard(w, s))
      case _ => None
  {
    SplitJoin([winning, scratched], '|');
    assert Join([winning, scratched], '|') == winning + "|" + scratched;
  }

  /** A text without '|' is no card. */
  lemma FromTextWithoutBar(input: string)
    requires '|' !in input
    ensures FromText(input).None?
  {
    SplitWithoutSeparator(input, '|');
  }

  /** How many of the scratched numbers win. */
  function Matches(winning: seq<nat>, scratched: seq<nat>): (n: nat)
    ensures n <= |scratched|
  {
    if scratched == [] then 0
    else
      var last := |scratched| - 1;
      Matches(winning, scratched[..last]) + if scratched[last] in winning then 1 else 0
  }

  function Pow2(n: nat): (p: nat)
    ensures p >= 1
  {
    if n == 0 then 1 else 2 * Pow2(n - 1)
  }

  /** What a card is worth: nothing without a winning number, 2 to the
      power of one less than the number of winning numbers otherwise. */
  function Points(card: Scratchcard): nat
  {
    var n := Matches(card.winning, card.scratched);
    if n == 0 then 0 else Pow2(n - 1)
  }

  /** `Scratchcard::value`: 0 to start with; the first scratched number
      that wins makes it 1 and every further one doubles it. */
  method Value(card: Scratchcard) returns (value: nat)
    ensures value == Points(card)
  {
    value := 0;
    for i := 0 to |card.scratched|
      invariant value == Points(Scratchcard(card.winning, card.scratched[..i]))
    {
      assert card.scratched[..i + 1][..i] == card.scratched[..i];
      if card.scratched[i] in card.winning {
        if value == 0 {
          value := 1;
        } else {
          value := value * 2;
        }
      }
    }
    assert card.scratched[..|card.scratched|] == card.scratched;
  }

  /** No scratched number wins: none is counted, so the card is worth
      nothing. */
  lemma {:induction false} MatchesNone(winning: seq<nat>, scratched: seq<nat>)
    requires forall k :: 0 <= k < |scratched| ==> scratched[k] !in winning
    ensures Matches(winning, scratched) == 0
  {
    if scratched != [] {
      MatchesNone(winning, scratched[..|scratched| - 1]);
    }
  }

  /** Every scratched number wins: they are all counted. */
  lemma {:induction false} MatchesAll(winning: seq<nat>, scratched: seq<nat>)
    requires forall k :: 0 <= k < |scratched| ==> scratched[k] in winning
    ensures Matches(winning, scratched) == |scratched|
  {
    if scratched != [] {
      MatchesAll(winning, scratched[..|scratched| - 1]);
    }
  }

  /** One more winning number scratched doubles what a card with some
      winning number is worth, and makes one without any worth 1. */
  lemma ScratchingAWinner(card: Scratchcard, n: nat)
    requires n in card.winning
    ensures Points(Scratchcard(card.winning, card.scratched + [n])) ==
      if Points(card) == 0 then 1 else 2 * Points(card)
  {
    assert (card.scratched + [n])[..|card.scratched|] == card.scratched;
  }

  /** One more losing number scratched changes nothing. */
  lemma ScratchingALoser(card: Scratchcard, n: nat)
    requires n !in card.winning
    ensures Points(Scratchcard(card.winning, card.scratched + [n])) == Points(card)
  {
    assert (card.scratched + [n])[..|card.scratched|] == card.scratched;
  }

  /** The card of the example: 48, 83, 86 and 17 win, so it is worth 8. */
  lemma ExampleCardValue()
    ensures Points(Scratchcard([41, 48, 83, 86, 17], [83, 86, 6, 31, 17, 9, 48, 53])) == 8
  {
    var winning: seq<nat> := [41, 48, 83, 86, 17];
    var scratched: seq<nat> := [83, 86, 6, 31, 17, 9, 48, 53];
    assert scratched[..1] == [] + [83];
    assert 83 in winning;
    assert Matches(winning, scratched[..1]) == 1;
    assert scratched[..2] == scratched[..1] + [86];
    assert 86 in winning;
    assert Matches(winning, scratched[..2]) == 2;
    assert scratched[..3] == scratched[..2] + [6];
    assert 6 !in winning;
    assert Matches(winning, scratched[..3]) == 2;
    assert scratched[..4] == scratched[..3] + [31];
    assert 31 !in winning;
    assert Matches(winning, scratched[..4]) == 2;
    assert scratched[..5] == scratched[..4] + [17];
    assert 17 in winning;
    assert Matches(winning, scratched[..5]) == 3;
    assert scratched[..6] == scratched[..5] + [9];
    assert 9 !in winning;
    assert Matches(winning, scratched[..6]) == 3;
    assert scratched[..7] == scratched[..6] + [48];
    assert 48 in winning;
    assert Matches(winning, scratched[..7]) == 4;
    assert scratched == scratched[..7] + [53];
    assert 53 !in winning;
    assert Matches(winning, scratched) == 4;
  }

  /** The text of a card's numbers: what follows the last ':' of the line,
      trimmed. */
  function CardValues(line: string): string
  {
    var pieces := Split(line, ':');
    Trim(pieces[|pieces| - 1])
  }

  /** What one line of the input adds to the answer. */
  function LineValue(line: string): Option<nat>
  {
    match FromText(CardValues(line))
    case None => None
    case Some(card) => Some(Points(card))
  }

  /** `run_a`: the worth of every card added up and printed; `None` when a
      line is no card. */
  method RunA(input: seq<string>) returns (r: Option<string>)
    ensures r.Some? <==> SumOver(LineValue, input).Some?
    ensures r.Some? ==> r.value == ShowNat(SumOver(LineValue, input).value)
  {
    var total := SumLoop(LineValue, input);
    if total.None? {
      return None;
    }
    return Some(ShowNat(total.value));
  }

  /** A line that is no card makes the whole answer fail. */
  lemma BadLineFails(input: seq<string>, i: nat)
    requires i < |input| && FromText(CardValues(input[i])).None?
    ensures SumOver(LineValue, input).None?
  {
    SumOverFails(LineValue, input, i);
  }

  /** A card worth nothing adds nothing to the answer. */
  lemma WorthlessCardAddsNothing(input: seq<string>, line: string, card: Scratchcard)
    requires FromText(CardValues(line)) == Some(card) && Points(card) == 0
    ensures SumOver(LineValue, input + [line]) == SumOver(LineValue, input)
  {
    SumOverAppend(LineValue, input, line);
  }

  /** `run_b`: part two is not solved; it prints 0. */
  method RunB(input: seq<string>) returns (r: string)
    ensures r == ShowNat(0)
  {
    return ShowNat(0);
  }
}
