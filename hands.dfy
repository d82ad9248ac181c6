/** The hands of 2022 day 2: rock, paper and scissors as the strategy guide
    writes them, and the order in which one hand beats another. */
module Hands {
  import opened Text

  /** `Hand`: the three shapes, or a letter the guide does not know. */
  datatype Hand = Rock | Paper | Scissors | Unknown(name: string)

  /** `std::cmp::Ordering`. */
  datatype Ordering = Less | Equal | Greater

  /** `Hand::from(char)`: `A` and `X` are rock, `B` and `Y` paper, `C` and `Z`
      scissors; any other letter is kept, as a string, in `Unknown`. */
  function HandFrom(c: char): (h: Hand)
    ensures h.Unknown? <==> c !in "ABCXYZ"
    ensures h.Unknown? ==> h.name == [c]
  {
    match c
    case 'A' => Rock
    case 'X' => Rock
    case 'B' => Paper
    case 'Y' => Paper
    case 'C' => Scissors
    case 'Z' => Scissors
    case _ => Unknown([c])
  }

  /** The letter the opponent's column uses for a known hand. */
  function OpponentLetter(h: Hand): (c: char)
    requires !h.Unknown?
    ensures c in "ABC"
  {
    match h
    case Rock => 'A'
    case Paper => 'B'
    case Scissors => 'C'
  }

  /** The letter the player's column uses for a known hand. */
  function PlayerLetter(h: Hand): (c: char)
    requires !h.Unknown?
    ensures c in "XYZ"
  {
    match h
    case Rock => 'X'
    case Paper => 'Y'
    case Scissors => 'Z'
  }

  /** Both columns name every known hand. */
  lemma HandFromLetters(h: Hand)
    requires !h.Unknown?
    ensures HandFrom(OpponentLetter(h)) == h && HandFrom(PlayerLetter(h)) == h
  {
  }

  /** The hand that beats a known hand: paper beats rock, scissors beat paper
      and rock beats scissors. */
  function Beater(h: Hand): (b: Hand)
    requires !h.Unknown?
    ensures !b.Unknown? && b != h
  {
    match h
    case Rock => Paper
    case Paper => Scissors
    case Scissors => Rock
  }

  /** `Ordering::reverse`. */
  function Reverse(o: Ordering): Ordering
  {
    match o
    case Less => Greater
    case Equal => Equal
    case Greater => Less
  }

  /** `Hand::partial_cmp`: a hand is greater than the one it beats, less than
      the one that beats it and equal to itself; a comparison that involves an
      unknown hand has no answer. */
  function PartialCmp(a: Hand, b: Hand): (r: Option<Ordering>)
    ensures r.None? <==> a.Unknown? || b.Unknown?
    ensures r == Some(Equal) <==> !a.Unknown? && a == b
  {
    match a
    case Rock =>
      (match b
       case Rock => Some(Equal)
       case Paper => Some(Less)
       case Scissors => Some(Greater)
       case Unknown(_) => None)
    case Paper =>
      (match b
       case Rock => Some(Greater)
       case Paper => Some(Equal)
       case Scissors => Some(Less)
       case Unknown(_) => None)
    case Scissors =>
      (match b
       case Rock => Some(Less)
       case Paper => Some(Greater)
       case Scissors => Some(Equal)
       case Unknown(_) => None)
    case Unknown(_) => None
  }

  /** `a > b`: `partial_cmp` answers `Greater`. */
  predicate GreaterThan(a: Hand, b: Hand)
  {
    PartialCmp(a, b) == Some(Greater)
  }

  /** The comparison is the rule of the game: one known hand is greater than
      another exactly when it beats it, and less exactly when it is beaten. */
  lemma PartialCmpIsTheRule(a: Hand, b: Hand)
    requires !a.Unknown? && !b.Unknown?
    ensures PartialCmp(a, b) == Some(Greater) <==> a == Beater(b)
    ensures PartialCmp(a, b) == Some(Less) <==> b == Beater(a)
  {
  }

  /** Swapping the hands reverses the answer. */
  lemma PartialCmpSwap(a: Hand, b: Hand)
    ensures PartialCmp(b, a) == if PartialCmp(a, b).None? then None else Some(Reverse(PartialCmp(a, b).value))
  {
  }

  /** Of two different known hands exactly one beats the other. */
  lemma OneOfTwoWins(a: Hand, b: Hand)
    requires !a.Unknown? && !b.Unknown? && a != b
    ensures GreaterThan(a, b) != GreaterThan(b, a)
  {
  }
}
