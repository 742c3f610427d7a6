/** Comparing two players at showdown (`compare`, the same code in
    player/player.go, domain/entity/game.go, service/game/utils.go and
    game/game.go) and picking the winners (`GetWinners`, player/player.go). */
module Showdown {
  import opened Cards
  import opened GameError

  datatype CompareResult = Player1Win | Player2Win | Draw

  /** What `compare` looks at in a player: the category, the high card and the
      best five cards (sorted ascending by rank when they come from the evaluator). */
  datatype Showing = Showing(handsRank: int, highCard: int, bestCards: seq<Card>)

  /** The kicker scan of `compare`: positions i-1 down to 0, first difference wins. */
  function CompareKickers(a: seq<Card>, b: seq<Card>, i: nat): CompareResult
    requires i <= |a| && i <= |b|
  {
    if i == 0 then Draw
    else if a[i - 1].rank > b[i - 1].rank then Player1Win
    else if a[i - 1].rank < b[i - 1].rank then Player2Win
    else CompareKickers(a, b, i - 1)
  }

  /** compare: category, then high card, then the best cards from the top down.
      The scan indexes the second player's cards with the first player's
      positions, so Go panics when the second list is the shorter one. */
  function Compare(p1: Showing, p2: Showing): (r: CompareResult)
    requires |p1.bestCards| <= |p2.bestCards|
    ensures r == Draw ==> p1.handsRank == p2.handsRank && p1.highCard == p2.highCard
    ensures r == Player1Win ==> p1.handsRank >= p2.handsRank
    ensures r == Player2Win ==> p1.handsRank <= p2.handsRank
  {
    if p1.handsRank > p2.handsRank then Player1Win
    else if p1.handsRank < p2.handsRank then Player2Win
    else if p1.highCard > p2.highCard then Player1Win
    else if p1.highCard < p2.highCard then Player2Win
    else CompareKickers(p1.bestCards, p2.bestCards, |p1.bestCards|)
  }

  /** ---- The order `compare` decides, as a lexicographic order on integer keys ---- */

  /** The ranks of the cards from the last one down to the first. */
  function RanksDown(a: seq<Card>): (r: seq<int>)
    ensures |r| == |a|
  {
    if a == [] then [] else [a[|a| - 1].rank] + RanksDown(a[..|a| - 1])
  }

  /** The key `compare` reads: category, high card, then the cards from the top. */
  function Key(p: Showing): seq<int>
  {
    [p.handsRank, p.highCard] + RanksDown(p.bestCards)
  }

  /** The lexicographic comparison of two keys of the same length. */
  function Lex(x: seq<int>, y: seq<int>): CompareResult
    requires |x| == |y|
  {
    if x == [] then Draw
    else if x[0] > y[0] then Player1Win
    else if x[0] < y[0] then Player2Win
    else Lex(x[1..], y[1..])
  }

  /** Players whose best-card lists have one length (five after evaluation, or
      none before it) can be compared either way round. */
  predicate SameShape(ps: seq<Showing>)
  {
    forall i, j | 0 <= i < |ps| && 0 <= j < |ps| :: |ps[i].bestCards| == |ps[j].bestCards|
  }

  lemma {:induction false} KickersAreLex(a: seq<Card>, b: seq<Card>, i: nat)
    requires i <= |a| && i <= |b|
    ensures CompareKickers(a, b, i) == Lex(RanksDown(a[..i]), RanksDown(b[..i]))
  {
    if i > 0 {
      assert a[..i][..i - 1] == a[..i - 1];
      assert b[..i][..i - 1] == b[..i - 1];
      var x, y := RanksDown(a[..i]), RanksDown(b[..i]);
      assert x[1..] == RanksDown(a[..i - 1]);
      assert y[1..] == RanksDown(b[..i - 1]);
      KickersAreLex(a, b, i - 1);
    }
  }

  /** compare is exactly the lexicographic comparison of the keys. */
  lemma CompareIsLex(p1: Showing, p2: Showing)
    requires |p1.bestCards| == |p2.bestCards|
    ensures Compare(p1, p2) == Lex(Key(p1), Key(p2))
  {
    var x, y := Key(p1), Key(p2);
    assert x[1..][1..] == RanksDown(p1.bestCards);
    assert y[1..][1..] == RanksDown(p2.bestCards);
    assert p1.bestCards[..|p1.bestCards|] == p1.bestCards;
    assert p2.bestCards[..|p2.bestCards|] == p2.bestCards;
    KickersAreLex(p1.bestCards, p2.bestCards, |p1.bestCards|);
  }

  lemma {:induction false} LexFlip(x: seq<int>, y: seq<int>)
    requires |x| == |y|
    ensures Lex(x, y) == Player1Win <==> Lex(y, x) == Player2Win
    ensures Lex(x, y) == Draw <==> x == y
  {
    if x != [] {
      LexFlip(x[1..], y[1..]);
      if x[0] == y[0] && x[1..] == y[1..] {
        assert x == [x[0]] + x[1..] && y == [y[0]] + y[1..];
      }
    }
  }

  lemma {:induction false} LexTransitive(x: seq<int>, y: seq<int>, z: seq<int>)
    requires |x| == |y| == |z|
    requires Lex(x, y) != Player2Win && Lex(y, z) != Player2Win
    ensures Lex(x, z) != Player2Win
    ensures Lex(x, y) == Player1Win || Lex(y, z) == Player1Win ==> Lex(x, z) == Player1Win
  {
    if x != [] {
      if x[0] == y[0] == z[0] {
        LexTransitive(x[1..], y[1..], z[1..]);
      }
    }
  }

  /** compare is antisymmetric, a player draws against itself, and a draw means
      the same category, high card and card ranks. */
  lemma CompareAntisymmetric(p1: Showing, p2: Showing)
    requires |p1.bestCards| == |p2.bestCards|
    ensures Compare(p1, p2) == Player1Win <==> Compare(p2, p1) == Player2Win
    ensures Compare(p1, p2) == Draw <==> Compare(p2, p1) == Draw
    ensures Compare(p1, p2) == Draw <==> Key(p1) == Key(p2)
  {
    CompareIsLex(p1, p2);
    CompareIsLex(p2, p1);
    LexFlip(Key(p1), Key(p2));
    LexFlip(Key(p2), Key(p1));
  }

  lemma CompareReflexive(p: Showing)
    ensures Compare(p, p) == Draw
  {
    CompareAntisymmetric(p, p);
  }

  /** "Beats or ties" is transitive, and strictly so when one step is strict. */
  lemma CompareTransitive(p: Showing, q: Showing, s: Showing)
    requires |p.bestCards| == |q.bestCards| == |s.bestCards|
    requires Compare(p, q) != Player2Win && Compare(q, s) != Player2Win
    ensures Compare(p, s) != Player2Win
    ensures Compare(p, q) == Player1Win || Compare(q, s) == Player1Win ==> Compare(p, s) == Player1Win
  {
    CompareIsLex(p, q);
    CompareIsLex(q, s);
    CompareIsLex(p, s);
    LexTransitive(Key(p), Key(q), Key(s));
  }

  /** Hands with the same category, high card and card ranks tie. */
  lemma SameRanksDraw(p1: Showing, p2: Showing)
    requires |p1.bestCards| == |p2.bestCards|
    requires p1.handsRank == p2.handsRank && p1.highCard == p2.highCard
    requires Ranks(p1.bestCards) == Ranks(p2.bestCards)
    ensures Compare(p1, p2) == Draw
  {
    KickersDraw(p1.bestCards, p2.bestCards, |p1.bestCards|);
  }

  lemma {:induction false} KickersDraw(a: seq<Card>, b: seq<Card>, i: nat)
    requires i <= |a| == |b| && Ranks(a) == Ranks(b)
    ensures CompareKickers(a, b, i) == Draw
  {
    if i > 0 {
      assert Ranks(a)[i - 1] == Ranks(b)[i - 1];
      KickersDraw(a, b, i - 1);
    }
  }

  /** ---- GetWinners ---- */

  /** The loop of GetWinners as a fold: keep the winners while the next player
      loses to the first of them, restart with the next player when it wins,
      and add it on a draw. */
  function Winners(ps: seq<Showing>): (w: seq<Showing>)
    requires |ps| > 0 && SameShape(ps)
    ensures |w| > 0
    ensures forall k | 0 <= k < |w| :: w[k] in ps
    decreases |ps|
  {
    if |ps| == 1 then [ps[0]]
    else
      var init := ps[..|ps| - 1];
      var p := ps[|ps| - 1];
      assert SameShape(init);
      var w := Winners(init);
      assert w[0] in init;
      match Compare(w[0], p)
      case Player1Win => w
      case Player2Win => [p]
      case Draw => w + [p]
  }

  /** The players of `ps` that draw against `w`, in their input order. */
  function DrawsWith(ps: seq<Showing>, w: Showing): (r: seq<Showing>)
    requires forall i | 0 <= i < |ps| :: |ps[i].bestCards| == |w.bestCards|
  {
    if ps == [] then []
    else
      var init := DrawsWith(ps[..|ps| - 1], w);
      if Compare(ps[|ps| - 1], w) == Draw then init + [ps[|ps| - 1]] else init
  }

  /** What GetWinners promises: the winners are exactly the players that tie
      with the first winner, in input order, and nobody beats that first winner. */
  lemma {:induction false} WinnersAreTheBest(ps: seq<Showing>)
    requires |ps| > 0 && SameShape(ps)
    ensures Winners(ps)[0] in ps
    ensures forall i | 0 <= i < |ps| :: Compare(Winners(ps)[0], ps[i]) != Player2Win
    ensures Winners(ps) == DrawsWith(ps, Winners(ps)[0])
    decreases |ps|
  {
    var w0 := Winners(ps)[0];
    if |ps| == 1 {
      CompareReflexive(ps[0]);
      assert ps[..0] == [];
    } else {
      var init := ps[..|ps| - 1];
      var p := ps[|ps| - 1];
      assert ps == init + [p];
      assert SameShape(init);
      WinnersAreTheBest(init);
      var w := Winners(init);
      assert w[0] in ps;
      CompareAntisymmetric(w[0], p);
      match Compare(w[0], p)
      case Player1Win =>
        assert w0 == w[0];
        DrawsAppend(init, p, w0);
      case Draw =>
        assert w0 == w[0];
        DrawsAppend(init, p, w0);
      case Player2Win =>
        assert w0 == p;
        assert forall i | 0 <= i < |init| :: init[i] == ps[i];
        NewLeader(init, p, w[0]);
    }
  }

  /** The last player beats the leader of the others: it beats or draws
      with every player, and it is the only one drawing with itself. */
  lemma NewLeader(init: seq<Showing>, p: Showing, w: Showing)
    requires |w.bestCards| == |p.bestCards| && w in init
    requires forall i | 0 <= i < |init| :: |init[i].bestCards| == |p.bestCards|
    requires forall i | 0 <= i < |init| :: Compare(w, init[i]) != Player2Win
    requires Compare(w, p) == Player2Win
    ensures forall i | 0 <= i < |init + [p]| :: Compare(p, (init + [p])[i]) != Player2Win
    ensures [p] == DrawsWith(init + [p], p)
  {
    var ps := init + [p];
    CompareAntisymmetric(w, p);
    forall i | 0 <= i < |ps|
      ensures Compare(p, ps[i]) != Player2Win
    {
      if i < |init| {
        assert ps[i] == init[i];
        CompareTransitive(p, w, init[i]);
      } else {
        CompareReflexive(p);
      }
    }
    forall i | 0 <= i < |init|
      ensures Compare(init[i], p) != Draw
    {
      CompareTransitive(p, w, init[i]);
      CompareAntisymmetric(p, init[i]);
    }
    NoDraws(init, p);
    DrawsAppend(init, p, p);
    CompareReflexive(p);
  }

  lemma DrawsAppend(ps: seq<Showing>, p: Showing, w: Showing)
    requires forall i | 0 <= i < |ps| :: |ps[i].bestCards| == |w.bestCards|
    requires |p.bestCards| == |w.bestCards|
    ensures DrawsWith(ps + [p], w)
         == DrawsWith(ps, w) + (if Compare(p, w) == Draw then [p] else [])
  {
    assert (ps + [p])[..|ps|] == ps;
  }

  lemma {:induction false} NoDraws(ps: seq<Showing>, w: Showing)
    requires forall i | 0 <= i < |ps| :: |ps[i].bestCards| == |w.bestCards|
    requires forall i | 0 <= i < |ps| :: Compare(ps[i], w) != Draw
    ensures DrawsWith(ps, w) == []
    decreases |ps|
  {
    if ps != [] {
      NoDraws(ps[..|ps| - 1], w);
    }
  }

  /** GetWinners: panics on an empty list; otherwise walks the players once. */
  method GetWinners(players: seq<Showing>) returns (r: Outcome<seq<Showing>>)
    requires SameShape(players)
    ensures players == [] ==> r == Panic
    ensures players != [] ==> r == Ok(Winners(players))
  {
    if |players| < 1 {
      return Panic;
    }
    var winners := [players[0]];
    var i := 1;
    assert players[..1] == [players[0]];
    while i < |players|
      invariant 1 <= i <= |players|
      invariant SameShape(players[..i])
      invariant winners == Winners(players[..i])
    {
      var winner := winners[0];
      var player := players[i];
      assert players[..i + 1][..i] == players[..i];
      assert SameShape(players[..i + 1]);
      assert winner in players;
      var result := Compare(winner, player);
      if result == Player2Win {
        winners := [player];
      } else if result == Draw {
        winners := winners + [player];
      }
      i := i + 1;
    }
    assert players[..i] == players;
    return Ok(winners);
  }
}

/** The expectations of player/player_test.go, with each best-card list written
    in the rank order SortCards gives it. */
module ShowdownExamples {
  import opened Cards
  import opened Showdown
  import HandsRank

  const Jack := 11
  const King := 13

  /** A pair of fives beats Jack high. */
  lemma OnePairBeatsHighCard()
    ensures Compare(
      Showing(HandsRank.OnePair, Five,
        [Card(Clover, 2), Card(Heart, 5), Card(Diamond, 5), Card(Diamond, 10), Card(Clover, Ace)]),
      Showing(HandsRank.HighCard, Jack,
        [Card(Heart, 2), Card(Diamond, 3), Card(Clover, 6), Card(Heart, 10), Card(Clover, Jack)]))
      == Player1Win
  {
  }

  /** On the same pair of fives, the Ace kicker beats the Jack kicker. */
  lemma AceKickerBeatsJack()
    ensures Compare(
      Showing(HandsRank.OnePair, Five,
        [Card(Clover, 2), Card(Heart, 5), Card(Diamond, 5), Card(Diamond, 10), Card(Clover, Jack)]),
      Showing(HandsRank.OnePair, Five,
        [Card(Heart, 2), Card(Spade, 5), Card(Spade, 5), Card(Spade, 6), Card(Diamond, Ace)]))
      == Player2Win
  {
  }

  const PairOfFives := Showing(HandsRank.OnePair, Five,
    [Card(Heart, 2), Card(Spade, 5), Card(Spade, 5), Card(Spade, 6), Card(Diamond, Ace)])
  const SixesUp := Showing(HandsRank.TwoPair, 6,
    [Card(Clover, 2), Card(Diamond, 2), Card(Diamond, 5), Card(Clover, 6), Card(Heart, 6)])
  const AcesUp := Showing(HandsRank.TwoPair, Ace,
    [Card(Heart, 4), Card(Heart, King), Card(Diamond, King), Card(Spade, Ace), Card(Clover, Ace)])

  /** Aces up beats sixes up and a pair: it is the only winner. */
  lemma AcesUpWinsAlone()
    ensures Winners([PairOfFives, SixesUp, AcesUp]) == [AcesUp]
  {
    assert SameShape([PairOfFives, SixesUp]);
    assert [PairOfFives, SixesUp, AcesUp][..2] == [PairOfFives, SixesUp];
    assert [PairOfFives, SixesUp][..1] == [PairOfFives];
  }

  /** Three wheels of different suits tie, and all three win in input order. */
  lemma WheelsSplit(a: Showing, b: Showing, c: Showing)
    requires a.handsRank == b.handsRank == c.handsRank == HandsRank.Straight
    requires a.highCard == b.highCard == c.highCard == Five
    requires |a.bestCards| == |b.bestCards| == |c.bestCards| == 5
    requires Ranks(a.bestCards) == Ranks(b.bestCards) == Ranks(c.bestCards) == [2, 3, 4, 5, Ace]
    ensures Winners([a, b, c]) == [a, b, c]
  {
    SameRanksDraw(a, b);
    SameRanksDraw(a, c);
    assert SameShape([a, b]);
    assert [a, b, c][..2] == [a, b];
    assert [a, b][..1] == [a];
    assert Winners([a]) == [a];
    assert Winners([a, b]) == [a, b];
  }
}
