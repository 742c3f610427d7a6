/** Hand categories and the category tests of card/hands_rank.go.  Each test
    looks at five cards that the caller has sorted ascending by rank and
    answers (matched, high card); a test that does not match answers
    (false, NoRank). */
module HandsRank {
  import opened Cards
  import opened GameError
  import Sorting

  const HighCard: int := 0
  const OnePair: int := 1
  const TwoPair: int := 2
  const Triple: int := 3
  const Straight: int := 4
  const Flush: int := 5
  const FullHouse: int := 6
  const FourCard: int := 7
  const StraightFlush: int := 8
  const RoyalStraightFlush: int := 9

  /** ---- Vocabulary for what a five-card hand is ---- */

  /** How many of the five cards have rank `r`. */
  function Count(c: seq<Card>, r: int): nat
    requires |c| == 5
  {
    (if c[0].rank == r then 1 else 0) + (if c[1].rank == r then 1 else 0)
    + (if c[2].rank == r then 1 else 0) + (if c[3].rank == r then 1 else 0)
    + (if c[4].rank == r then 1 else 0)
  }

  predicate Ascending(c: seq<Card>)
  {
    |c| == 5 && c[0].rank <= c[1].rank <= c[2].rank <= c[3].rank <= c[4].rank
  }

  predicate SameSymbol(c: seq<Card>)
    requires |c| == 5
  {
    c[0].symbol == c[1].symbol == c[2].symbol == c[3].symbol == c[4].symbol
  }

  /** Some rank occurs at least `k` times. */
  predicate HasAtLeast(c: seq<Card>, k: nat)
    requires |c| == 5
  {
    Count(c, c[0].rank) >= k || Count(c, c[1].rank) >= k || Count(c, c[2].rank) >= k
    || Count(c, c[3].rank) >= k || Count(c, c[4].rank) >= k
  }

  /** Some rank occurs exactly `k` times. */
  predicate HasGroup(c: seq<Card>, k: nat)
    requires |c| == 5
  {
    Count(c, c[0].rank) == k || Count(c, c[1].rank) == k || Count(c, c[2].rank) == k
    || Count(c, c[3].rank) == k || Count(c, c[4].rank) == k
  }

  /** Two different ranks each occur at least twice. */
  predicate TwoPairs(c: seq<Card>)
    requires |c| == 5
  {
    exists i, j | 0 <= i < 5 && 0 <= j < 5 ::
      c[i].rank < c[j].rank && Count(c, c[i].rank) >= 2 && Count(c, c[j].rank) >= 2
  }

  /** Five different ranks spanning five consecutive values. */
  predicate Run(c: seq<Card>)
    requires |c| == 5
  {
    c[0].rank < c[1].rank < c[2].rank < c[3].rank < c[4].rank && c[4].rank - c[0].rank == 4
  }

  /** The Ace-low straight A-2-3-4-5, which sorts as 2-3-4-5-A. */
  predicate Wheel(c: seq<Card>)
    requires |c| == 5
  {
    Ranks(c) == [2, 3, 4, 5, Ace]
  }

  /** The value a straight is ranked by: Five for the wheel, else its top card. */
  function StraightHigh(c: seq<Card>): int
    requires |c| == 5
  {
    if Wheel(c) then Five else c[4].rank
  }

  /** ---- The category tests ---- */

  /** Positions lo..hi-1 each go up by exactly one rank from the previous card,
      and, when `suited`, keep its symbol (the loops of the straight tests). */
  predicate StepsUp(c: seq<Card>, lo: int, hi: int, suited: bool)
    requires 1 <= lo <= hi <= |c|
  {
    forall i | lo <= i < hi ::
      c[i].rank == c[i - 1].rank + 1 && (suited ==> c[i].symbol == c[i - 1].symbol)
  }

  function IsRoyalStraightFlush(cards: seq<Card>): (r: (bool, int))
    requires |cards| == 5
    ensures r.0 <==> SameSymbol(cards) && Ranks(cards) == [Ten, 11, 12, 13, Ace]
    ensures r.0 ==> r.1 == Ace
    ensures !r.0 ==> r.1 == NoRank
  {
    if cards[0].rank != Ten then (false, NoRank)
    else if !StepsUp(cards, 1, 5, true) then (false, NoRank)
    else (true, Ace)
  }

  function IsStraightFlush(cards: seq<Card>): (r: (bool, int))
    requires |cards| == 5
    ensures Ascending(cards) ==>
      (r.0 <==> SameSymbol(cards) && (Wheel(cards) || (Run(cards) && cards[4].rank != Ace)))
    ensures r.0 ==> r.1 == StraightHigh(cards)
    ensures !r.0 ==> r.1 == NoRank
  {
    if cards[4].rank == Ace then
      if cards[4].symbol != cards[3].symbol then (false, NoRank)
      else if cards[3].rank != Five then (false, NoRank)
      else if !StepsUp(cards, 1, 4, true) then (false, NoRank)
      else (true, Five)
    else if !StepsUp(cards, 1, 5, true) then (false, NoRank)
    else (true, cards[4].rank)
  }

  function IsFourCard(cards: seq<Card>): (r: (bool, int))
    requires |cards| == 5
    ensures Ascending(cards) ==> (r.0 <==> HasAtLeast(cards, 4))
    ensures r.0 ==> Count(cards, r.1) >= 4
    ensures !r.0 ==> r.1 == NoRank
  {
    if cards[0].rank == cards[1].rank && cards[1].rank == cards[2].rank
       && cards[2].rank == cards[3].rank then (true, cards[3].rank)
    else if cards[1].rank == cards[2].rank && cards[2].rank == cards[3].rank
       && cards[3].rank == cards[4].rank then (true, cards[4].rank)
    else (false, NoRank)
  }

  function IsFullHouse(cards: seq<Card>): (r: (bool, int))
    requires |cards| == 5
    ensures Ascending(cards) && !HasAtLeast(cards, 5) ==>
      (r.0 <==> HasGroup(cards, 3) && HasGroup(cards, 2))
    ensures r.0 ==> Count(cards, r.1) >= 3
    ensures !r.0 ==> r.1 == NoRank
  {
    if cards[0].rank == cards[1].rank && cards[1].rank == cards[2].rank
       && cards[3].rank == cards[4].rank then (true, cards[2].rank)
    else if cards[0].rank == cards[1].rank && cards[2].rank == cards[3].rank
       && cards[3].rank == cards[4].rank then (true, cards[4].rank)
    else (false, NoRank)
  }

  function IsFlush(cards: seq<Card>): (r: (bool, int))
    requires |cards| == 5
    ensures r.0 <==> SameSymbol(cards)
    ensures r.0 && Ascending(cards) ==> forall i | 0 <= i < 5 :: cards[i].rank <= r.1
    ensures r.0 ==> r.1 in Ranks(cards)
    ensures !r.0 ==> r.1 == NoRank
  {
    if cards[1].symbol != cards[0].symbol || cards[2].symbol != cards[1].symbol
       || cards[3].symbol != cards[2].symbol || cards[4].symbol != cards[3].symbol
    then (false, NoRank)
    else (true, cards[4].rank)
  }

  function IsStraight(cards: seq<Card>): (r: (bool, int))
    requires |cards| == 5
    ensures Ascending(cards) ==> (r.0 <==> Run(cards) || Wheel(cards))
    ensures r.0 ==> r.1 == StraightHigh(cards)
    ensures !r.0 ==> r.1 == NoRank
  {
    if cards[4].rank == Ace && cards[0].rank == Two && cards[1].rank == 3
       && cards[2].rank == 4 && cards[3].rank == Five then (true, Five)
    else if !StepsUp(cards, 1, 5, false) then (false, NoRank)
    else (true, cards[4].rank)
  }

  function IsTriple(cards: seq<Card>): (r: (bool, int))
    requires |cards| == 5
    ensures Ascending(cards) ==> (r.0 <==> HasAtLeast(cards, 3))
    ensures r.0 ==> Count(cards, r.1) >= 3
    ensures !r.0 ==> r.1 == NoRank
  {
    if cards[0].rank == cards[1].rank && cards[1].rank == cards[2].rank then (true, cards[2].rank)
    else if cards[1].rank == cards[2].rank && cards[2].rank == cards[3].rank then (true, cards[3].rank)
    else if cards[2].rank == cards[3].rank && cards[3].rank == cards[4].rank then (true, cards[4].rank)
    else (false, NoRank)
  }

  /** Accepts two pairs only when the middle card belongs to one of them: the
      shape X X Z Y Y (odd card in the middle) is not recognised. */
  function IsTwoPair(cards: seq<Card>): (r: (bool, int))
    requires |cards| == 5
    ensures Ascending(cards) && !HasAtLeast(cards, 3) ==>
      (r.0 <==> TwoPairs(cards) && Count(cards, cards[2].rank) == 2)
    ensures r.0 && Ascending(cards) && !HasAtLeast(cards, 3) ==>
      Count(cards, r.1) == 2
      && forall i | 0 <= i < 5 :: Count(cards, cards[i].rank) >= 2 ==> cards[i].rank <= r.1
    ensures !r.0 ==> r.1 == NoRank
  {
    if cards[0].rank == cards[1].rank && cards[2].rank == cards[3].rank then (true, cards[3].rank)
    else if cards[1].rank == cards[2].rank && cards[3].rank == cards[4].rank then (true, cards[4].rank)
    else (false, NoRank)
  }

  /** Reports the lowest rank that repeats. */
  function IsOnePair(cards: seq<Card>): (r: (bool, int))
    requires |cards| == 5
    ensures Ascending(cards) ==> (r.0 <==> HasAtLeast(cards, 2))
    ensures r.0 ==> Count(cards, r.1) >= 2
    ensures r.0 && Ascending(cards) ==>
      forall i | 0 <= i < 5 :: Count(cards, cards[i].rank) >= 2 ==> r.1 <= cards[i].rank
    ensures !r.0 ==> r.1 == NoRank
  {
    if cards[1].rank == cards[0].rank then (true, cards[1].rank)
    else if cards[2].rank == cards[1].rank then (true, cards[2].rank)
    else if cards[3].rank == cards[2].rank then (true, cards[3].rank)
    else if cards[4].rank == cards[3].rank then (true, cards[4].rank)
    else (false, NoRank)
  }

  /** ---- checkHandsRank ---- */

  /** The test of category `k`; HighCard matches every hand and reports its top card. */
  function Test(k: int, c: seq<Card>): (bool, int)
    requires |c| == 5
  {
    if k == RoyalStraightFlush then IsRoyalStraightFlush(c)
    else if k == StraightFlush then IsStraightFlush(c)
    else if k == FourCard then IsFourCard(c)
    else if k == FullHouse then IsFullHouse(c)
    else if k == Flush then IsFlush(c)
    else if k == Straight then IsStraight(c)
    else if k == Triple then IsTriple(c)
    else if k == TwoPair then IsTwoPair(c)
    else if k == OnePair then IsOnePair(c)
    else (true, c[4].rank)
  }

  /** checkHandsRank: sorts the cards, then reports the strongest category whose
      test matches, with that test's high card. */
  function CheckHandsRank(cards: seq<Card>): (r: (int, int))
    requires |cards| == 5
    ensures HighCard <= r.0 <= RoyalStraightFlush
    ensures Test(r.0, Sorting.SortBy(cards, RankOf)) == (true, r.1)
    ensures forall k | r.0 < k <= RoyalStraightFlush :: !Test(k, Sorting.SortBy(cards, RankOf)).0
  {
    var c := Sorting.SortBy(cards, RankOf);
    var royal := IsRoyalStraightFlush(c);
    var straightFlush := IsStraightFlush(c);
    var fourCard := IsFourCard(c);
    var fullHouse := IsFullHouse(c);
    var flush := IsFlush(c);
    var straight := IsStraight(c);
    var triple := IsTriple(c);
    var twoPair := IsTwoPair(c);
    var onePair := IsOnePair(c);
    if royal.0 then (RoyalStraightFlush, royal.1)
    else if straightFlush.0 then (StraightFlush, straightFlush.1)
    else if fourCard.0 then (FourCard, fourCard.1)
    else if fullHouse.0 then (FullHouse, fullHouse.1)
    else if flush.0 then (Flush, flush.1)
    else if straight.0 then (Straight, straight.1)
    else if triple.0 then (Triple, triple.1)
    else if twoPair.0 then (TwoPair, twoPair.1)
    else if onePair.0 then (OnePair, onePair.1)
    else (HighCard, c[4].rank)
  }

  /** ---- makeAllCombinations ---- */

  /** The lists makeAllCombinations appends when called with `tmp` at level `lv`,
      with its loop standing at index `i`: each extends `tmp` by `5 - lv` of the
      cards from index `i` on, in their original order. */
  function Combinations(cards: seq<Card>, tmp: seq<Card>, lv: nat, i: nat): (r: seq<seq<Card>>)
    requires lv <= 5 && i <= |cards|
    ensures lv == 5 ==> r == [tmp]
    decreases 5 - lv, |cards| - i
  {
    if lv == 5 then [tmp]
    else if i == |cards| then []
    else Combinations(cards, tmp + [cards[i]], lv + 1, i + 1) + Combinations(cards, tmp, lv, i + 1)
  }

  function AllCombinations(cards: seq<Card>): (r: seq<seq<Card>>)
    ensures forall e | e in r :: |e| == 5
  {
    var r := Combinations(cards, [], 0, 0);
    assert forall e | e in r :: |e| == 5 by {
      forall e | e in r
        ensures |e| == 5
      {
        var idx := CombinationShape(cards, [], 0, 0, e);
      }
    }
    r
  }

  function Choose(n: nat, k: nat): nat
  {
    if k == 0 then 1 else if n == 0 then 0 else Choose(n - 1, k - 1) + Choose(n - 1, k)
  }

  /** The number of lists is the binomial coefficient C(cards left, cards still to pick). */
  lemma {:induction false} CombinationsCount(cards: seq<Card>, tmp: seq<Card>, lv: nat, i: nat)
    requires lv <= 5 && i <= |cards|
    ensures |Combinations(cards, tmp, lv, i)| == Choose(|cards| - i, 5 - lv)
    decreases 5 - lv, |cards| - i
  {
    if lv < 5 && i < |cards| {
      var left := Combinations(cards, tmp + [cards[i]], lv + 1, i + 1);
      var right := Combinations(cards, tmp, lv, i + 1);
      assert Combinations(cards, tmp, lv, i) == left + right;
      CombinationsCount(cards, tmp + [cards[i]], lv + 1, i + 1);
      CombinationsCount(cards, tmp, lv, i + 1);
      assert Choose(|cards| - i, 5 - lv) == Choose(|cards| - i - 1, 5 - lv - 1) + Choose(|cards| - i - 1, 5 - lv);
    }
  }

  lemma ChooseSevenFive()
    ensures Choose(7, 5) == 21
  {
    assert Choose(1, 0) == 1 && Choose(1, 1) == 1;
    assert Choose(2, 1) == 2 && Choose(2, 2) == 1;
    assert Choose(3, 1) == 3 && Choose(3, 2) == 3;
    assert Choose(4, 2) == 6 && Choose(4, 3) == 4;
    assert Choose(5, 3) == 10 && Choose(5, 4) == 5;
    assert Choose(6, 4) == 15 && Choose(6, 5) == 6;
  }

  /** Seven cards give exactly 21 five-card lists. */
  lemma TwentyOneCombinations(cards: seq<Card>)
    requires |cards| == 7
    ensures |AllCombinations(cards)| == 21
  {
    CombinationsCount(cards, [], 0, 0);
    ChooseSevenFive();
  }

  /** `idx` is a strictly increasing list of positions in lo..hi-1. */
  predicate Increasing(idx: seq<int>, lo: int, hi: int)
  {
    (forall a | 0 <= a < |idx| :: lo <= idx[a] < hi)
    && (forall a, b | 0 <= a < b < |idx| :: idx[a] < idx[b])
  }

  /** The cards at the positions `idx`. */
  function Pick(cards: seq<Card>, idx: seq<int>): (r: seq<Card>)
    requires Increasing(idx, 0, |cards|)
    ensures |r| == |idx|
  {
    seq(|idx|, a requires 0 <= a < |idx| => cards[idx[a]])
  }

  /** The cards at positions `idx` after `tmp`: the shape of every list. */
  predicate IsExtension(cards: seq<Card>, tmp: seq<Card>, e: seq<Card>, idx: seq<int>, k: nat, lo: int)
  {
    0 <= lo && |idx| == k && Increasing(idx, lo, |cards|) && e == tmp + Pick(cards, idx)
  }

  lemma ExtendFront(cards: seq<Card>, tmp: seq<Card>, e: seq<Card>, idx': seq<int>, k: nat, i: int)
    requires 0 <= i < |cards|
    requires IsExtension(cards, tmp + [cards[i]], e, idx', k, i + 1)
    ensures IsExtension(cards, tmp, e, [i] + idx', k + 1, i)
  {
    var idx := [i] + idx';
    assert Pick(cards, idx) == [cards[i]] + Pick(cards, idx');
  }

  /** Every list is `tmp` followed by the cards at strictly increasing positions from `i` on. */
  lemma {:induction false} CombinationShape(cards: seq<Card>, tmp: seq<Card>, lv: nat, i: nat, e: seq<Card>)
    returns (idx: seq<int>)
    requires lv <= 5 && i <= |cards|
    requires e in Combinations(cards, tmp, lv, i)
    ensures IsExtension(cards, tmp, e, idx, 5 - lv, i)
    decreases 5 - lv, |cards| - i
  {
    if lv == 5 {
      idx := [];
      assert e == tmp;
      assert Pick(cards, idx) == [];
    } else {
      var left := Combinations(cards, tmp + [cards[i]], lv + 1, i + 1);
      var right := Combinations(cards, tmp, lv, i + 1);
      assert Combinations(cards, tmp, lv, i) == left + right;
      if e in left {
        var idx' := CombinationShape(cards, tmp + [cards[i]], lv + 1, i + 1, e);
        ExtendFront(cards, tmp, e, idx', 5 - (lv + 1), i);
        idx := [i] + idx';
      } else {
        idx := CombinationShape(cards, tmp, lv, i + 1, e);
      }
    }
  }

  /** Concatenation regroups freely. */
  lemma AppendAssoc<T>(a: seq<T>, b: seq<T>, c: seq<T>)
    ensures (a + b) + c == a + (b + c)
  {
  }

  /** makeAllCombinations: appends every list of Combinations(cards, tmp, lv, start)
      to `allComb`, pushing and popping cards on `tmp` as it recurses. */
  method MakeAllCombinations(cards: seq<Card>, tmp: seq<Card>, allComb: seq<seq<Card>>, lv: nat, start: nat)
    returns (res: seq<seq<Card>>)
    requires lv <= 5 && start <= |cards|
    ensures res == allComb + Combinations(cards, tmp, lv, start)
    decreases 5 - lv
  {
    if lv == 5 {
      var copied := tmp;
      return allComb + [copied];
    }
    res := allComb;
    var tmpCards := tmp;
    var i := start;
    while i < |cards|
      invariant start <= i <= |cards|
      invariant tmpCards == tmp
      invariant res + Combinations(cards, tmp, lv, i) == allComb + Combinations(cards, tmp, lv, start)
    {
      tmpCards := tmpCards + [cards[i]];
      ghost var before := res;
      res := MakeAllCombinations(cards, tmpCards, res, lv + 1, i + 1);
      AppendAssoc(before, Combinations(cards, tmpCards, lv + 1, i + 1), Combinations(cards, tmp, lv, i + 1));
      tmpCards := tmpCards[..|tmpCards| - 1];
      i := i + 1;
    }
  }

  /** ---- getBestHandsRank ---- */

  /** A candidate: its five cards sorted by rank, its category and its high card. */
  datatype Hand = Hand(cards: seq<Card>, handsRank: int, highCard: int)

  /** A five-card list as getBestHandsRank sees it: sorted, then classified. */
  function Evaluate(comb: seq<Card>): (h: Hand)
    requires |comb| == 5
    ensures |h.cards| == 5 && Sorting.SortedBy(h.cards, RankOf)
    ensures multiset(h.cards) == multiset(comb)
    ensures HighCard <= h.handsRank <= RoyalStraightFlush
  {
    Sorting.SortByCorrect(comb, RankOf);
    var s := Sorting.SortBy(comb, RankOf);
    var r := CheckHandsRank(comb);
    Hand(s, r.0, r.1)
  }

  /** The kicker test of the tie-break loop: it replaces the best as soon as some
      position, scanned from the top, holds a lower rank in the best than in the
      candidate; it never stops at a position where the best is higher. */
  predicate KickerReplaces(best: seq<Card>, cur: seq<Card>)
    requires |best| == 5 && |cur| == 5
    ensures !KickerReplaces(best, cur) <==> forall j | 0 <= j < 5 :: cur[j].rank <= best[j].rank
  {
    exists j | 0 <= j < 5 :: best[j].rank < cur[j].rank
  }

  /** One step of the loop of getBestHandsRank. */
  function Better(best: Hand, cur: Hand): (r: Hand)
    requires |best.cards| == 5 && |cur.cards| == 5
    ensures r == best || r == cur
    ensures AtMost(best, r) && AtMost(cur, r)
  {
    if best.handsRank < cur.handsRank then cur
    else if best.handsRank == cur.handsRank && best.highCard < cur.highCard then cur
    else if best.handsRank == cur.handsRank && best.highCard == cur.highCard
            && KickerReplaces(best.cards, cur.cards) then cur
    else best
  }

  predicate AllFive(hands: seq<Hand>)
  {
    forall k | 0 <= k < |hands| :: |hands[k].cards| == 5
  }

  /** The loop of getBestHandsRank over the candidates `hands`, starting from the first. */
  function BestOf(hands: seq<Hand>): (h: Hand)
    requires |hands| > 0 && AllFive(hands)
    ensures |h.cards| == 5
  {
    if |hands| == 1 then hands[0]
    else Better(BestOf(hands[..|hands| - 1]), hands[|hands| - 1])
  }

  /** The candidates of the 21 subsets, in the order makeAllCombinations lists them. */
  function Candidates(cards: seq<Card>): (hs: seq<Hand>)
    requires |cards| == 7
    ensures |hs| == 21 && AllFive(hs) && |AllCombinations(cards)| == 21
    ensures forall k | 0 <= k < 21 :: hs[k] == Evaluate(AllCombinations(cards)[k])
  {
    var combs := AllCombinations(cards);
    TwentyOneCombinations(cards);
    seq(21, k requires 0 <= k < 21 => Evaluate(combs[k]))
  }

  /** getBestHandsRank on seven cards. */
  function BestHandsRank(cards: seq<Card>): Hand
    requires |cards| == 7
  {
    BestOf(Candidates(cards))
  }

  /** (category, high card) of `a` is at most that of `b`, lexicographically. */
  predicate AtMost(a: Hand, b: Hand)
  {
    a.handsRank < b.handsRank || (a.handsRank == b.handsRank && a.highCard <= b.highCard)
  }

  /** The chosen candidate is lexicographically maximal in (category, high card). */
  lemma {:induction false} BestOfIsMaximal(hands: seq<Hand>)
    requires |hands| > 0 && AllFive(hands)
    ensures forall k | 0 <= k < |hands| :: AtMost(hands[k], BestOf(hands))
  {
    if |hands| > 1 {
      var init := hands[..|hands| - 1];
      BestOfIsMaximal(init);
      forall k | 0 <= k < |hands|
        ensures AtMost(hands[k], BestOf(hands))
      {
        if k < |hands| - 1 {
          assert hands[k] == init[k];
        }
      }
    }
  }

  /** The chosen candidate is one of the candidates. */
  lemma {:induction false} BestOfIsMember(hands: seq<Hand>)
    requires |hands| > 0 && AllFive(hands)
    ensures BestOf(hands) in hands
  {
    if |hands| > 1 {
      var init := hands[..|hands| - 1];
      BestOfIsMember(init);
      assert BestOf(init) in hands;
    }
  }

  /** What getBestHandsRank promises despite its kicker loop, part one: the
      category and high card are the best over all 21 subsets. */
  lemma BestHandsRankIsMaximal(cards: seq<Card>)
    requires |cards| == 7
    ensures forall e | e in AllCombinations(cards) :: AtMost(Evaluate(e), BestHandsRank(cards))
  {
    var combs := AllCombinations(cards);
    var hands := Candidates(cards);
    BestOfIsMaximal(hands);
    forall e | e in combs
      ensures AtMost(Evaluate(e), BestHandsRank(cards))
    {
      var k :| 0 <= k < |combs| && combs[k] == e;
      assert hands[k] == Evaluate(e);
    }
  }

  /** The converse of CombinationShape: `tmp` followed by the cards at any
      `5 - lv` strictly increasing positions from `i` on is one of the lists,
      so no five-card subset is skipped. */
  lemma {:induction false} CombinationsComplete(cards: seq<Card>, tmp: seq<Card>, lv: nat, i: nat, idx: seq<int>)
    requires lv <= 5 && i <= |cards|
    requires |idx| == 5 - lv && Increasing(idx, i, |cards|)
    ensures tmp + Pick(cards, idx) in Combinations(cards, tmp, lv, i)
    decreases 5 - lv, |cards| - i
  {
    if lv == 5 {
      assert tmp + Pick(cards, idx) == tmp;
    } else {
      assert i <= idx[0] < |cards|;
      var left := Combinations(cards, tmp + [cards[i]], lv + 1, i + 1);
      var right := Combinations(cards, tmp, lv, i + 1);
      assert Combinations(cards, tmp, lv, i) == left + right;
      if idx[0] == i {
        var rest := idx[1..];
        IncreasingTail(idx, i, |cards|);
        CombinationsComplete(cards, tmp + [cards[i]], lv + 1, i + 1, rest);
        PickFront(cards, idx);
        assert tmp + Pick(cards, idx) == (tmp + [cards[i]]) + Pick(cards, rest);
      } else {
        IncreasingSkip(idx, i, |cards|);
        CombinationsComplete(cards, tmp, lv, i + 1, idx);
      }
    }
  }

  lemma IncreasingTail(idx: seq<int>, lo: int, hi: int)
    requires Increasing(idx, lo, hi) && |idx| > 0 && idx[0] == lo
    ensures Increasing(idx[1..], lo + 1, hi)
  {
  }

  lemma IncreasingSkip(idx: seq<int>, lo: int, hi: int)
    requires Increasing(idx, lo, hi) && (|idx| > 0 ==> idx[0] != lo)
    ensures Increasing(idx, lo + 1, hi)
  {
  }

  /** The cards at `idx` are the card at its first position followed by the cards at the rest. */
  lemma PickFront(cards: seq<Card>, idx: seq<int>)
    requires Increasing(idx, 0, |cards|) && |idx| > 0
    ensures Pick(cards, idx) == [cards[idx[0]]] + Pick(cards, idx[1..])
  {
  }

  /** BestHandsRankIsMaximal over every five-card subset of the seven cards,
      given by its strictly increasing positions: none beats the chosen hand
      in (category, high card). */
  lemma EverySubsetConsidered(cards: seq<Card>, idx: seq<int>)
    requires |cards| == 7 && |idx| == 5 && Increasing(idx, 0, 7)
    ensures AtMost(Evaluate(Pick(cards, idx)), BestHandsRank(cards))
  {
    CombinationsComplete(cards, [], 0, 0, idx);
    assert [] + Pick(cards, idx) == Pick(cards, idx);
    BestHandsRankIsMaximal(cards);
  }

  /** Part two: the returned cards are one of those subsets (strictly
      increasing positions of the input), sorted by rank. */
  lemma BestHandsRankIsASubset(cards: seq<Card>)
    requires |cards| == 7
    ensures exists idx :: (Increasing(idx, 0, 7) && |idx| == 5
      && BestHandsRank(cards).cards == Sorting.SortBy(Pick(cards, idx), RankOf))
    ensures Sorting.SortedBy(BestHandsRank(cards).cards, RankOf)
  {
    var combs := AllCombinations(cards);
    var hands := Candidates(cards);
    BestOfIsMember(hands);
    var k :| 0 <= k < 21 && hands[k] == BestOf(hands);
    var idx := CombinationShape(cards, [], 0, 0, combs[k]);
    assert BestHandsRank(cards) == Evaluate(combs[k]);
    assert combs[k] == Pick(cards, idx);
  }

  /** getBestHandsRank: panics unless given exactly seven cards; otherwise walks
      the 21 subsets keeping the best by category, then high card, then the
      kicker test. */
  method GetBestHandsRank(cards: seq<Card>) returns (r: Outcome<Hand>)
    ensures |cards| != 7 ==> r == Panic
    ensures |cards| == 7 ==> r == Ok(BestHandsRank(cards))
  {
    if |cards| != 7 {
      return Panic;
    }
    var allCombs := MakeAllCombinations(cards, [], [], 0, 0);
    assert allCombs == AllCombinations(cards);
    var best := KeepBest(allCombs, Candidates(cards));
    return Ok(best);
  }

  /** The loop of getBestHandsRank over the evaluated subsets. */
  method KeepBest(combs: seq<seq<Card>>, ghost hands: seq<Hand>) returns (best: Hand)
    requires |combs| == |hands| > 0 && AllFive(hands)
    requires forall k | 0 <= k < |combs| :: |combs[k]| == 5 && hands[k] == Evaluate(combs[k])
    ensures best == BestOf(hands)
  {
    best := Evaluated(combs[0]);
    assert hands[..1] == [hands[0]];
    var i := 1;
    while i < |combs|
      invariant 1 <= i <= |combs|
      invariant AllFive(hands[..i]) && best == BestOf(hands[..i])
    {
      var cur := Evaluated(combs[i]);
      BestOfStep(hands, i);
      best := KeepBetter(best, cur);
      i := i + 1;
    }
    assert hands[..i] == hands;
  }

  lemma BestOfStep(hands: seq<Hand>, i: int)
    requires 0 < i < |hands| && AllFive(hands)
    ensures AllFive(hands[..i]) && AllFive(hands[..i + 1])
    ensures BestOf(hands[..i + 1]) == Better(BestOf(hands[..i]), hands[i])
  {
    assert hands[..i + 1][..i] == hands[..i];
  }

  /** The body of the loop of getBestHandsRank: category first, then high card,
      then the kicker scan from the top card down, which breaks on the first
      position where the best is lower. */
  method KeepBetter(best: Hand, cur: Hand) returns (next: Hand)
    requires |best.cards| == 5 && |cur.cards| == 5
    ensures next == Better(best, cur)
  {
    var bestCards, bestHandsRank, bestHighCard := best.cards, best.handsRank, best.highCard;
    var curCards, curHandsRank, curHighCard := cur.cards, cur.handsRank, cur.highCard;
    if bestHandsRank < curHandsRank {
      return cur;
    }
    if bestHandsRank == curHandsRank {
      if bestHighCard < curHighCard {
        return Hand(curCards, bestHandsRank, curHighCard);
      }
      if bestHighCard == curHighCard {
        var j := 4;
        while j >= 0
          invariant -1 <= j <= 4
          invariant forall t | j < t < 5 :: bestCards[t].rank >= curCards[t].rank
        {
          if bestCards[j].rank < curCards[j].rank {
            return cur;
          }
          j := j - 1;
        }
      }
    }
    return best;
  }

  /** One candidate as the loop body computes it: the list is copied, sorted in
      place with sortCards, and classified with checkHandsRank. */
  method Evaluated(comb: seq<Card>) returns (h: Hand)
    requires |comb| == 5
    ensures h == Evaluate(comb)
  {
    var a := new Card[5](j requires 0 <= j < 5 => comb[j]);
    assert a[..] == comb;
    SortCards(a);
    var sorted := a[..];
    var rh := CheckHandsRank(sorted);
    assert rh == CheckHandsRank(comb) by {
      Sorting.SortSorted(sorted, RankOf);
      SameCardsSameRank(sorted, comb);
    }
    h := Hand(sorted, rh.0, rh.1);
  }

  /** checkHandsRank sorts its own copy first, so only the rank order of
      the five cards matters. */
  lemma SameCardsSameRank(a: seq<Card>, b: seq<Card>)
    requires |a| == |b| == 5 && Sorting.SortBy(a, RankOf) == Sorting.SortBy(b, RankOf)
    ensures CheckHandsRank(a) == CheckHandsRank(b)
  {
  }
}

module HandsRankExamples {
  import opened Cards
  import opened HandsRank
  import Sorting

  const Qs := Card(Spade, 12)
  const H6 := Card(Heart, 6)
  const Ad := Card(Diamond, Ace)
  const Ks := Card(Spade, 13)
  const S6 := Card(Spade, 6)
  const C3 := Card(Clover, 3)
  const C2 := Card(Clover, 2)
  const Sample: seq<Card> := [Qs, H6, Ad, Ks, S6, C3, C2]

  /** The best five of the sample hand {Qs, 6h, Ad, Ks, 6s, 3c, 2c}: a pair of sixes. */
  lemma SampleBestFive()
    ensures Evaluate([Qs, H6, Ad, Ks, S6]) == Hand([H6, S6, Qs, Ks, Ad], OnePair, 6)
  {
    SampleSort();
    var c := [H6, S6, Qs, Ks, Ad];
    assert !IsRoyalStraightFlush(c).0 && !IsStraightFlush(c).0 && !IsFourCard(c).0 && !IsFullHouse(c).0;
    assert !IsFlush(c).0 && !IsStraight(c).0 && !IsTriple(c).0 && !IsTwoPair(c).0;
    assert IsOnePair(c) == (true, 6);
  }

  /** checkHandsRank on a hand that is already in rank order. */
  lemma Classify(c: seq<Card>)
    requires |c| == 5 && Sorting.SortedBy(c, RankOf)
    ensures CheckHandsRank(c) == CheckHandsRank(Sorting.SortBy(c, RankOf))
    ensures Sorting.SortBy(c, RankOf) == c
  {
    Sorting.SortSorted(c, RankOf);
  }

  /** Suited 10-J-Q-K-A is the royal straight flush, ranked by its Ace. */
  lemma RoyalExample()
    ensures CheckHandsRank([Card(Spade, Ten), Card(Spade, 11), Qs, Ks, Card(Spade, Ace)])
         == (RoyalStraightFlush, Ace)
  {
    Classify([Card(Spade, Ten), Card(Spade, 11), Qs, Ks, Card(Spade, Ace)]);
  }

  /** Suited 9-K is a straight flush, not a royal one. */
  lemma NineToKingExample()
    ensures CheckHandsRank([Card(Spade, 9), Card(Spade, Ten), Card(Spade, 11), Qs, Ks])
         == (StraightFlush, 13)
  {
    Classify([Card(Spade, 9), Card(Spade, Ten), Card(Spade, 11), Qs, Ks]);
  }

  /** The suited wheel A-2-3-4-5 is a straight flush ranked by its Five. */
  lemma WheelExample()
    ensures CheckHandsRank([Card(Heart, 2), Card(Heart, 3), Card(Heart, 4), Card(Heart, Five), Card(Heart, Ace)])
         == (StraightFlush, Five)
  {
    Classify([Card(Heart, 2), Card(Heart, 3), Card(Heart, 4), Card(Heart, Five), Card(Heart, Ace)]);
  }

  /** Two pairs with the odd card in the middle (2 2 5 9 9) are not seen as two
      pairs: the hand falls through to a pair of twos. */
  lemma TwoPairMissed()
    ensures CheckHandsRank([Card(Heart, 2), C2, Card(Clover, Five), Card(Heart, 9), Card(Spade, 9)])
         == (OnePair, 2)
  {
    Classify([Card(Heart, 2), C2, Card(Clover, Five), Card(Heart, 9), Card(Spade, 9)]);
  }

  /** The kicker scan replaces a pair of sixes with an Ace kicker by a pair of
      sixes with a King kicker, because the replacing hand is higher at the
      bottom position. */
  lemma KickerReplacesStronger()
    ensures Better(Hand([C2, C3, H6, S6, Ad], OnePair, 6),
                   Hand([Card(Clover, 4), Card(Clover, Five), H6, S6, Ks], OnePair, 6))
         == Hand([Card(Clover, 4), Card(Clover, Five), H6, S6, Ks], OnePair, 6)
  {
    assert [C2, C3, H6, S6, Ad][0].rank < [Card(Clover, 4), Card(Clover, Five), H6, S6, Ks][0].rank;
  }

  /** The stable insertion sort of the sample's best five, one insertion at a time:
      the two sixes keep their input order (Heart before Spade). */
  lemma SampleSort()
    ensures Sorting.SortBy([Qs, H6, Ad, Ks, S6], RankOf) == [H6, S6, Qs, Ks, Ad]
  {
    InsertAfter([], Qs);
    SortPrefix([], Qs, [Qs]);
    InsertBefore([], Qs, H6);
    InsertAfter([], H6);
    SortPrefix([Qs], H6, [H6, Qs]);
    InsertAfter([H6, Qs], Ad);
    SortPrefix([Qs, H6], Ad, [H6, Qs, Ad]);
    InsertBefore([H6, Qs], Ad, Ks);
    InsertAfter([H6, Qs], Ks);
    assert [Qs, H6, Ad] == [Qs, H6] + [Ad];
    assert [H6, Qs, Ad] == [H6, Qs] + [Ad];
    assert Sorting.SortBy([Qs, H6, Ad], RankOf) == [H6, Qs, Ad];
    SortPrefix([Qs, H6, Ad], Ks, [H6, Qs, Ks, Ad]);
    assert [Qs, H6, Ad, Ks] == [Qs, H6, Ad] + [Ks];
    assert Sorting.SortBy([Qs, H6, Ad, Ks], RankOf) == [H6, Qs, Ks, Ad];
    assert [H6, Qs, Ks, Ad] == [H6, Qs, Ks] + [Ad];
    assert [H6, Qs, Ks] == [H6, Qs] + [Ks];
    assert [H6, Qs] == [H6] + [Qs];
    InsertBefore([H6, Qs, Ks], Ad, S6);
    InsertBefore([H6, Qs], Ks, S6);
    InsertBefore([H6], Qs, S6);
    InsertAfter([H6], S6);
    assert [H6] + [S6] + [Qs] + [Ks] + [Ad] == [H6, S6, Qs, Ks, Ad];
    assert [Qs, H6, Ad, Ks, S6] == [Qs, H6, Ad, Ks] + [S6];
    SortPrefix([Qs, H6, Ad, Ks], S6, [H6, S6, Qs, Ks, Ad]);
  }

  lemma SortPrefix(s: seq<Card>, x: Card, r: seq<Card>)
    requires Sorting.Insert(Sorting.SortBy(s, RankOf), x, RankOf) == r
    ensures Sorting.SortBy(s + [x], RankOf) == r
  {
    Sorting.SortSnoc(s, x, RankOf);
  }

  lemma InsertBefore(init: seq<Card>, last: Card, x: Card)
    requires x.rank < last.rank
    ensures Sorting.Insert(init + [last], x, RankOf) == Sorting.Insert(init, x, RankOf) + [last]
  {
    assert (init + [last])[..|init|] == init;
  }

  lemma InsertAfter(s: seq<Card>, x: Card)
    requires s == [] || s[|s| - 1].rank <= x.rank
    ensures Sorting.Insert(s, x, RankOf) == s + [x]
  {
  }
}
