/** Playing cards (package card): a suit symbol and a rank from Two (2) to Ace (14). */
module Cards {
  import Sorting

  datatype Symbol = Spade | Heart | Diamond | Clover

  /** Ranks are plain integers; `NoRank` is the "no rank" sentinel the hand tests
      return when they do not match. */
  const NoRank: int := 0
  const Two: int := 2
  const Five: int := 5
  const Ten: int := 10
  const Ace: int := 14

  datatype Card = Card(symbol: Symbol, rank: int)

  predicate IsStandard(c: Card)
  {
    Two <= c.rank <= Ace
  }

  function RankOf(c: Card): int
  {
    c.rank
  }

  /** The ranks of a hand, in order. */
  function Ranks(cards: seq<Card>): (r: seq<int>)
    ensures |r| == |cards|
    ensures forall i | 0 <= i < |cards| :: r[i] == cards[i].rank
  {
    seq(|cards|, i requires 0 <= i < |cards| => cards[i].rank)
  }

  /** SortCards (card/utils.go): sorts a slice of cards in place, ascending by rank. */
  method SortCards(cards: array<Card>)
    modifies cards
    ensures cards[..] == Sorting.SortBy(old(cards[..]), RankOf)
    ensures Sorting.SortedBy(cards[..], RankOf)
    ensures multiset(cards[..]) == multiset(old(cards[..]))
  {
    Sorting.SortSlice(cards, RankOf);
    Sorting.SortByCorrect(old(cards[..]), RankOf);
  }
}
