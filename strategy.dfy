/** The strategy guide of 2022 day 2: each line is a game, the opponent's hand
    and then the player's, and the player's score is summed over the games. */
module StrategyGuide {
  import opened Text
  import opened Hands

  const SCORE_IF_DRAW: nat := 3
  const SCORE_IF_WIN: nat := 6
  const SCORE_IF_LOSE: nat := 0

  /** The score of the shape the player chose: 1 for rock, 2 for paper, 3 for
      scissors and 0 for an unknown hand. */
  function ShapeScore(h: Hand): (s: nat)
    ensures s <= 3 && (s == 0 <==> h.Unknown?)
  {
    match h
    case Rock => 1
    case Paper => 2
    case Scissors => 3
    case Unknown(_) => 0
  }

  /** The score of the outcome: a draw when the hands are equal, a win when
      the player's hand is greater, a loss otherwise. */
  function OutcomeScore(opponent: Hand, player: Hand): (s: nat)
    ensures s in {SCORE_IF_LOSE, SCORE_IF_DRAW, SCORE_IF_WIN}
    ensures s == SCORE_IF_DRAW <==> opponent == player
  {
    if opponent == player then SCORE_IF_DRAW
    else if GreaterThan(player, opponent) then SCORE_IF_WIN
    else SCORE_IF_LOSE
  }

  /** For known hands the outcome is the rule of the game. */
  lemma OutcomeOfKnownHands(opponent: Hand, player: Hand)
    requires !opponent.Unknown? && !player.Unknown?
    ensures OutcomeScore(opponent, player) ==
      if opponent == player then SCORE_IF_DRAW
      else if player == Beater(opponent) then SCORE_IF_WIN
      else SCORE_IF_LOSE
    ensures opponent != player && player != Beater(opponent) ==> opponent == Beater(player)
  {
    PartialCmpIsTheRule(player, opponent);
  }

  /** The hand named by the first letter of every word, as `evaluate_game`
      builds them; an empty word panics on `[0]`. */
  function HandsOf(words: seq<string>): (r: Option<seq<Hand>>)
    ensures r.Some? <==> forall k :: 0 <= k < |words| ==> words[k] != []
    ensures r.Some? ==>
      (|r.value| == |words| && forall k :: 0 <= k < |words| ==> r.value[k] == HandFrom(words[k][0]))
  {
    if words == [] then Some([])
    else if words[0] == [] then None
    else
      match HandsOf(words[1..])
      case None => None
      case Some(rest) => Some([HandFrom(words[0][0])] + rest)
  }

  /** `evaluate_game`: the words of the line split at spaces, the first two
      hands compared. A line with one word panics on `g[1]`. */
  function EvaluateGame(game: string): (r: Option<nat>)
    ensures r.Some? ==> r.value <= 9
  {
    match HandsOf(Split(game, ' '))
    case None => None
    case Some(g) =>
      if |g| < 2 then None
      else Some(ShapeScore(g[1]) + OutcomeScore(g[0], g[1]))
  }

  /** A game of two letters scores the player's shape plus the outcome. */
  lemma EvaluateGameOfLetters(opponent: char, player: char)
    requires opponent != ' ' && player != ' '
    ensures EvaluateGame([opponent, ' ', player]) ==
      Some(ShapeScore(HandFrom(player)) + OutcomeScore(HandFrom(opponent), HandFrom(player)))
  {
    var game := [opponent, ' ', player];
    assert Join([[opponent], [player]], ' ') == game;
    SplitJoin([[opponent], [player]], ' ');
    HandsOfPair([opponent], [player]);
  }

  lemma HandsOfPair(first: string, second: string)
    requires first != [] && second != []
    ensures HandsOf([first, second]) == Some([HandFrom(first[0]), HandFrom(second[0])])
  {
    var words := [first, second];
    assert words[0] == first && words[1..] == [second];
    assert [second][0] == second && [second][1..] == [];
    assert HandsOf([second]) == Some([HandFrom(second[0])] + []);
    assert [HandFrom(second[0])] + [] == [HandFrom(second[0])];
    assert HandsOf(words) == Some([HandFrom(first[0])] + [HandFrom(second[0])]);
    assert [HandFrom(first[0])] + [HandFrom(second[0])] == [HandFrom(first[0]), HandFrom(second[0])];
  }

  /** The games of the source's tests: "A Y" scores 8, "B X" 1 and "C Z" 6. */
  lemma RockAgainstPaper()
    ensures EvaluateGame("A Y") == Some(8)
  {
    EvaluateGameOfLetters('A', 'Y');
  }

  lemma PaperAgainstRock()
    ensures EvaluateGame("B X") == Some(1)
  {
    EvaluateGameOfLetters('B', 'X');
  }

  lemma ScissorsAgainstScissors()
    ensures EvaluateGame("C Z") == Some(6)
  {
    EvaluateGameOfLetters('C', 'Z');
  }

  /** The score of every game, in order. */
  function Scores(games: seq<string>): (r: seq<Option<nat>>)
    ensures |r| == |games| && forall k :: 0 <= k < |games| ==> r[k] == EvaluateGame(games[k])
  {
    seq(|games|, k requires 0 <= k < |games| => EvaluateGame(games[k]))
  }

  /** The fold `acc + game.1` over the scores, from 0; a game that panicked
      stops it. */
  function SumScores(scores: seq<Option<nat>>): (r: Option<nat>)
    ensures r.None? <==> exists k :: 0 <= k < |scores| && scores[k].None?
  {
    if scores == [] then Some(0)
    else if scores[0].None? then None
    else
      match SumScores(scores[1..])
      case None => None
      case Some(rest) => Some(scores[0].value + rest)
  }

  /** A total of at most 9 points a game. */
  lemma {:induction false} SumScoresAtMost(scores: seq<Option<nat>>)
    requires forall k :: 0 <= k < |scores| && scores[k].Some? ==> scores[k].value <= 9
    ensures SumScores(scores).Some? ==> SumScores(scores).value <= 9 * |scores|
  {
    if scores != [] && scores[0].Some? {
      SumScoresAtMost(scores[1..]);
    }
  }

  /** The total splits over consecutive groups of games. */
  lemma {:induction false} SumScoresConcat(a: seq<Option<nat>>, b: seq<Option<nat>>)
    ensures SumScores(a + b) ==
      if SumScores(a).Some? && SumScores(b).Some? then Some(SumScores(a).value + SumScores(b).value)
      else None
  {
    if a == [] {
      assert a + b == b;
    } else {
      assert (a + b)[0] == a[0] && (a + b)[1..] == a[1..] + b;
      SumScoresConcat(a[1..], b);
    }
  }

  /** The total score of some games: at most 9 points a game. */
  function TotalScore(games: seq<string>): (r: Option<nat>)
    ensures r.None? <==> exists k :: 0 <= k < |games| && EvaluateGame(games[k]).None?
    ensures r.Some? ==> r.value <= 9 * |games|
  {
    SumScoresAtMost(Scores(games));
    SumScores(Scores(games))
  }

  /** Part one of `main`: the input trimmed and split into lines. */
  function PartOne(input: string): (r: Option<nat>)
    ensures r.None? ==>
      exists k :: 0 <= k < |Split(Trim(input), '\n')| && EvaluateGame(Split(Trim(input), '\n')[k]).None?
    ensures (exists k :: 0 <= k < |Split(Trim(input), '\n')| && EvaluateGame(Split(Trim(input), '\n')[k]).None?) ==>
      r.None?
    ensures r.Some? ==> r.value <= 9 * |Split(Trim(input), '\n')|
  {
    TotalScore(Split(Trim(input), '\n'))
  }
}
