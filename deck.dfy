/** The deck (card/deck.go): a slice of cards that is built in a fixed order,
    shuffled once, and dealt from its end. */
module Deck {
  import opened Cards

  /** The suits in the order NewDeck walks them. */
  const Symbols: seq<Symbol> := [Spade, Heart, Diamond, Clover]

  /** The unshuffled deck: ranks 2..14 in the outer loop, the four suits inside. */
  function FullDeck(): (d: seq<Card>)
    ensures |d| == 52
  {
    seq(52, k requires 0 <= k < 52 => Card(Symbols[k % 4], 2 + k / 4))
  }

  predicate Distinct<T(==)>(s: seq<T>)
  {
    forall i, j | 0 <= i < j < |s| :: s[i] != s[j]
  }

  /** The choices of `rand.Shuffle` on `n` elements: it walks `i` from `n - 1`
      down to 1 and swaps position `i` with a position drawn from `0..i`;
      `picks[k]` is the position drawn when `i == n - 1 - k`. */
  predicate ShufflePicks(picks: seq<int>, n: nat)
  {
    |picks| == (if n == 0 then 0 else n - 1)
    && forall k | 0 <= k < |picks| :: 0 <= picks[k] <= n - 1 - k
  }

  lemma FullDeckAt(i: int, j: int)
    requires 2 <= i < 15 && 0 <= j < 4
    ensures 4 * (i - 2) + j < 52
    ensures FullDeck()[4 * (i - 2) + j] == Card(Symbols[j], i)
  {
    var k := 4 * (i - 2) + j;
    assert k % 4 == j && k / 4 == i - 2;
  }

  /** The unshuffled deck holds every standard card, and each only once. */
  lemma FullDeckComplete()
    ensures Distinct(FullDeck())
    ensures forall c :: c in FullDeck() <==> IsStandard(c)
  {
    var d := FullDeck();
    forall a, b | 0 <= a < b < 52
      ensures d[a] != d[b]
    {
      if d[a].rank == d[b].rank {
        assert a / 4 == b / 4;
        assert a % 4 != b % 4;
      }
    }
    forall c | IsStandard(c)
      ensures c in d
    {
      var j := match c.symbol
        case Spade => 0
        case Heart => 1
        case Diamond => 2
        case Clover => 3;
      FullDeckAt(c.rank, j);
    }
  }

  /** A sequence is free of duplicates exactly when no element occurs twice in its multiset. */
  lemma {:induction false} DistinctByCount<T>(s: seq<T>)
    ensures Distinct(s) <==> forall x | x in multiset(s) :: multiset(s)[x] == 1
    decreases |s|
  {
    if s != [] {
      var init := s[..|s| - 1];
      var last := s[|s| - 1];
      assert s == init + [last];
      DistinctByCount(init);
      if Distinct(s) {
        forall i | 0 <= i < |init|
          ensures init[i] != last
        {
          assert init[i] == s[i];
        }
        assert last !in init;
        assert Distinct(init);
      } else {
        var i, j :| 0 <= i < j < |s| && s[i] == s[j];
        if j == |s| - 1 {
          assert s[i] in init;
          assert multiset(s)[last] >= 2;
        } else {
          assert !Distinct(init) by {
            assert init[i] == init[j];
          }
          var x :| x in multiset(init) && multiset(init)[x] != 1;
          assert multiset(s)[x] >= multiset(init)[x];
        }
      }
    }
  }

  lemma DistinctPermutation<T>(a: seq<T>, b: seq<T>)
    requires Distinct(a) && multiset(a) == multiset(b)
    ensures Distinct(b)
  {
    DistinctByCount(a);
    DistinctByCount(b);
  }

  class Deck {
    var cards: seq<Card>

    /** Every card left is a standard card, and no card is left twice. */
    ghost predicate Valid()
      reads this
    {
      Distinct(cards) && forall c | c in cards :: IsStandard(c)
    }

    /** NewDeck: the 52 cards in order, then shuffled. */
    constructor (picks: seq<int>)
      requires ShufflePicks(picks, 52)
      ensures multiset(cards) == multiset(FullDeck())
      ensures |cards| == 52
      ensures Valid()
    {
      var d: seq<Card> := [];
      var symbols := [Spade, Heart, Diamond, Clover];
      var i := 2;
      while i < 15
        invariant 2 <= i <= 15
        invariant d == FullDeck()[..4 * (i - 2)]
      {
        var j := 0;
        while j < 4
          invariant 0 <= j <= 4
          invariant d == FullDeck()[..4 * (i - 2) + j]
        {
          FullDeckAt(i, j);
          d := d + [Card(symbols[j], i)];
          j := j + 1;
        }
        i := i + 1;
      }
      assert d == FullDeck();
      cards := d;
      new;
      Shuffle(picks);
      FullDeckComplete();
      DistinctPermutation(FullDeck(), cards);
      forall c | c in cards
        ensures IsStandard(c)
      {
        assert c in multiset(FullDeck());
      }
    }

    /** shuffle: the Fisher-Yates walk of rand.Shuffle with the given choices;
        the deck keeps exactly the same cards. */
    method Shuffle(picks: seq<int>)
      requires ShufflePicks(picks, |cards|)
      modifies this
      ensures multiset(cards) == multiset(old(cards))
      ensures |cards| == |old(cards)|
    {
      var n := |cards|;
      var i := n - 1;
      var k := 0;
      while i > 0
        invariant k == n - 1 - i && 0 <= k <= |picks|
        invariant |cards| == n
        invariant multiset(cards) == multiset(old(cards))
      {
        var j := picks[k];
        cards := cards[i := cards[j]][j := cards[i]];
        i := i - 1;
        k := k + 1;
      }
    }

    /** GetCard: removes and returns the last card. */
    method GetCard() returns (c: Card)
      requires |cards| > 0
      modifies this
      ensures c == old(cards)[|old(cards)| - 1]
      ensures cards == old(cards)[..|old(cards)| - 1]
      ensures old(Valid()) ==> Valid() && c !in cards && IsStandard(c)
    {
      var last := |cards| - 1;
      c := cards[last];
      cards := cards[..last];
      assert old(cards) == cards + [c];
    }
  }
}
