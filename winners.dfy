/** Winners and losers of a hand (`GetWinnersAndLosers` in
    domain/entity/game.go, `getWinnersAndLosers` in service/game/utils.go and
    game/game.go), stated on seat numbers of the table. */
module Winners {
  import opened GameError
  import opened Players
  import opened TurnOrder
  import opened Showdown
  import Sorting
  import Uint64

  /** The three generations of the engine: the entity of domain/entity with
      service/gameservice.go, the service of service/game, and game/game.go. */
  datatype Version = Entity | ServiceGame | Legacy

  /** `compare` on two players, with the panic Go hits when the kicker scan
      runs past the end of the second player's best cards. */
  function Judge(a: PlayerState, b: PlayerState): (r: Outcome<CompareResult>)
    ensures |a.bestCards| <= |b.bestCards| ==> r == Ok(Compare(ShowingOf(a), ShowingOf(b)))
    ensures r == Panic <==> a.handsRank == b.handsRank && a.highCard == b.highCard
                            && |a.bestCards| > |b.bestCards|
  {
    if a.handsRank != b.handsRank || a.highCard != b.highCard then
      Ok(if a.handsRank > b.handsRank then Player1Win
         else if a.handsRank < b.handsRank then Player2Win
         else if a.highCard > b.highCard then Player1Win
         else Player2Win)
    else if |a.bestCards| <= |b.bestCards| then Ok(Compare(ShowingOf(a), ShowingOf(b)))
    else Panic
  }

  /** Sort keys on seats: largest total bet first, and smallest first. */
  function MostBetFirst(t: seq<PlayerState>): (key: nat -> int)
    ensures forall i: nat, j: nat | i < |t| && j < |t| :: key(i) <= key(j) <==> t[i].totalBet >= t[j].totalBet
  {
    (i: nat) => if i < |t| then -(t[i].totalBet as int) else 0
  }

  function LeastBetFirst(t: seq<PlayerState>): (key: nat -> int)
    ensures forall i: nat, j: nat | i < |t| && j < |t| :: key(i) <= key(j) <==> t[i].totalBet <= t[j].totalBet
  {
    (i: nat) => if i < |t| then t[i].totalBet as int else 0
  }

  predicate AtTable(t: seq<PlayerState>, s: seq<nat>)
  {
    forall k | 0 <= k < |s| :: s[k] < |t|
  }

  /** One round of the fold: the player is compared with the first winner;
      losing to it changes nothing, beating it with the same total bet
      replaces every winner, beating it with another total bet or drawing
      joins the winners. */
  function Step(t: seq<PlayerState>, w: seq<nat>, p: nat): (r: Outcome<seq<nat>>)
    requires AtTable(t, w) && |w| > 0 && p < |t|
    ensures r.Ok? ==> AtTable(t, r.value) && |r.value| > 0 && r.value[0] in w + [p]
  {
    match Judge(t[w[0]], t[p])
    case Ok(Player1Win) => Ok(w)
    case Ok(Player2Win) => if t[w[0]].totalBet == t[p].totalBet then Ok([p]) else Ok(w + [p])
    case Ok(Draw) => Ok(w + [p])
    case Panic => Panic
  }

  /** The fold over `order[1..i]`, starting from `[order[0]]`. */
  function FoldWinners(t: seq<PlayerState>, order: seq<nat>, i: nat): (r: Outcome<seq<nat>>)
    requires AtTable(t, order) && 1 <= i <= |order|
    ensures r.Ok? ==> AtTable(t, r.value) && |r.value| > 0
    ensures r.Ok? ==> forall k | 0 <= k < |r.value| :: r.value[k] in order[..i]
    decreases i
  {
    if i == 1 then Ok([order[0]])
    else match FoldWinners(t, order, i - 1)
      case Ok(w) => Step(t, w, order[i - 1])
      case _ => Panic
  }

  /** Whether some seat of `w` has this nickname. */
  predicate NamedIn(t: seq<PlayerState>, name: string, w: seq<nat>)
    requires AtTable(t, w)
  {
    exists k | 0 <= k < |w| :: t[w[k]].nickname == name
  }

  /** The seats of `pool`, in order, whose nickname no winner has. */
  function Losers(t: seq<PlayerState>, pool: seq<nat>, w: seq<nat>): (r: seq<nat>)
    requires AtTable(t, pool) && AtTable(t, w)
    ensures AtTable(t, r)
    ensures forall k | 0 <= k < |r| :: r[k] in pool && !NamedIn(t, t[r[k]].nickname, w)
    ensures forall k | 0 <= k < |pool| && !NamedIn(t, t[pool[k]].nickname, w) :: pool[k] in r
    decreases |pool|
  {
    if pool == [] then []
    else
      var last := pool[|pool| - 1];
      Losers(t, pool[..|pool| - 1], w) + (if NamedIn(t, t[last].nickname, w) then [] else [last])
  }

  lemma SortKeepsSeats(t: seq<PlayerState>, s: seq<nat>, key: nat -> int)
    requires AtTable(t, s)
    ensures AtTable(t, Sorting.SortBy(s, key))
    ensures multiset(Sorting.SortBy(s, key)) == multiset(s)
  {
    Sorting.SortByCorrect(s, key);
    var r := Sorting.SortBy(s, key);
    forall k | 0 <= k < |r|
      ensures r[k] < |t|
    {
      assert r[k] in multiset(r);
      assert r[k] in s;
    }
  }

  /** The players in the hand, most bet first. */
  function Order(t: seq<PlayerState>): (r: seq<nat>)
    ensures AtTable(t, r)
  {
    SortKeepsSeats(t, ValidIndices(t), MostBetFirst(t));
    Sorting.SortBy(ValidIndices(t), MostBetFirst(t))
  }

  /** The winners before the final sort. */
  function Folded(t: seq<PlayerState>): (r: Outcome<seq<nat>>)
    requires |ValidIndices(t)| >= 1
    ensures r.Ok? ==> AtTable(t, r.value) && |r.value| > 0
    ensures r.Ok? ==> forall k | 0 <= k < |r.value| :: InHand(t[r.value[k]])
  {
    var order := Order(t);
    SortKeepsSeats(t, ValidIndices(t), MostBetFirst(t));
    var r := FoldWinners(t, order, |order|);
    assert order[..|order|] == order;
    if r.Ok? then
      assert forall k | 0 <= k < |r.value| :: InHand(t[r.value[k]]) by {
        forall k | 0 <= k < |r.value|
          ensures InHand(t[r.value[k]])
        {
          var x := r.value[k];
          assert x in multiset(order);
          assert x in multiset(ValidIndices(t));
        }
      }
      r
    else r
  }

  /** getWinnersAndLosers: no player in the hand is an error; a single one
      wins alone with no losers; otherwise the players in the hand, most bet
      first, are folded into winners, which come back least bet first, and
      the losers are the ready players (the players in the hand, most bet
      first, in game/game.go) whose nickname is not a winner's. */
  function WinnersAndLosers(t: seq<PlayerState>, version: Version): (r: Outcome<(seq<nat>, seq<nat>)>)
    ensures r.Ok? ==> AtTable(t, r.value.0) && AtTable(t, r.value.1)
  {
    var valid := ValidIndices(t);
    if |valid| == 0 then Fail(ZeroPlayer)
    else if |valid| == 1 then Ok(([valid[0]], []))
    else
      match Folded(t)
      case Ok(w) =>
        SortKeepsSeats(t, w, LeastBetFirst(t));
        var winners := Sorting.SortBy(w, LeastBetFirst(t));
        var pool := if version == Legacy then Order(t) else ReadyIndices(t);
        Ok((winners, Losers(t, pool, winners)))
      case _ => Panic
  }

  /** With nobody in the hand the result is the "zero player" error; with one
      player in the hand that player wins alone and nobody loses. */
  lemma FewPlayers(t: seq<PlayerState>, version: Version)
    ensures |ValidIndices(t)| == 0 <==> WinnersAndLosers(t, version) == Fail(ZeroPlayer)
    ensures |ValidIndices(t)| == 1 ==> WinnersAndLosers(t, version) == Ok(([ValidIndices(t)[0]], []))
  {
  }

  /** Otherwise: the winners are players in the hand, at least one, least bet
      first; the losers are exactly the players of the pool, in the pool's
      order, whose nickname is not a winner's; the pool is the ready players,
      except in game/game.go, where it is the players in the hand, most bet
      first. */
  lemma WinnersShape(t: seq<PlayerState>, version: Version)
    requires |ValidIndices(t)| >= 2
    ensures var r := WinnersAndLosers(t, version);
      r.Ok? ==>
        var (w, l) := r.value;
        && |w| > 0
        && (forall k | 0 <= k < |w| :: InHand(t[w[k]]))
        && (forall j, k | 0 <= j < k < |w| :: t[w[j]].totalBet <= t[w[k]].totalBet)
        && var pool := if version == Legacy then Order(t) else ReadyIndices(t);
           l == Losers(t, pool, w)
  {
    var r := WinnersAndLosers(t, version);
    if r.Ok? {
      SortedWinners(t, Folded(t).value);
    }
  }

  lemma SortedWinners(t: seq<PlayerState>, f: seq<nat>)
    requires AtTable(t, f) && |f| > 0 && forall k | 0 <= k < |f| :: InHand(t[f[k]])
    ensures var w := Sorting.SortBy(f, LeastBetFirst(t));
      && AtTable(t, w) && |w| > 0
      && (forall k | 0 <= k < |w| :: InHand(t[w[k]]))
      && (forall j, k | 0 <= j < k < |w| :: t[w[j]].totalBet <= t[w[k]].totalBet)
  {
    var w := Sorting.SortBy(f, LeastBetFirst(t));
    SortKeepsSeats(t, f, LeastBetFirst(t));
    Sorting.SortByCorrect(f, LeastBetFirst(t));
    forall k | 0 <= k < |w|
      ensures InHand(t[w[k]])
    {
      assert w[k] in multiset(f);
    }
    forall j, k | 0 <= j < k < |w|
      ensures t[w[j]].totalBet <= t[w[k]].totalBet
    {
      assert LeastBetFirst(t)(w[j]) <= LeastBetFirst(t)(w[k]);
    }
  }

  /** ---- Two players in the hand ---- */

  lemma SortPair(a: nat, b: nat, key: nat -> int)
    ensures Sorting.SortBy([a, b], key) == if key(a) <= key(b) then [a, b] else [b, a]
  {
    assert [a, b][..1] == [a] && [a][..0] == [];
    assert Sorting.SortBy([a], key) == [a];
    assert Sorting.SortBy([a, b], key) == Sorting.Insert([a], b, key);
    assert [a][..0] + [b] + [a] == [b, a];
  }

  lemma TwoInHand(t: seq<PlayerState>)
    requires |t| == 2 && InHand(t[0]) && InHand(t[1])
    ensures ValidIndices(t) == [0, 1] && ReadyIndices(t) == [0, 1]
  {
    SelectTwo(t, InHand);
    SelectTwo(t, IsReady);
  }

  /** Two kept players are selected as seats 0 and 1. */
  lemma SelectTwo(t: seq<PlayerState>, keep: PlayerState -> bool)
    requires |t| == 2 && keep(t[0]) && keep(t[1])
    ensures Select(t, keep) == [0, 1]
  {
    assert t[..1][..0] == [];
    assert Select(t[..1], keep) == [0];
  }

  /** With two players in the hand, the fold is a single comparison of the
      bigger bettor (seat 0 here) with the other. */
  lemma TwoFolded(t: seq<PlayerState>)
    requires |t| == 2 && InHand(t[0]) && InHand(t[1]) && t[0].totalBet >= t[1].totalBet
    ensures |ValidIndices(t)| == 2 && Folded(t) == Step(t, [0], 1)
  {
    var s0: seq<nat> := [0];
    var s01: seq<nat> := [0, 1];
    assert ValidIndices(t) == s01 by {
      TwoInHand(t);
    }
    assert Order(t) == s01 by {
      SortPair(0, 1, MostBetFirst(t));
    }
    assert FoldWinners(t, s01, 1) == Ok(s0);
  }

  /** Side pot: the bigger bettor holds the weaker hand and the other player
      went all in for less; the bigger bettor stays a winner and the short
      stack joins it. */
  lemma ShortStackJoins(t: seq<PlayerState>)
    requires |t| == 2 && InHand(t[0]) && InHand(t[1])
    requires t[0].totalBet > t[1].totalBet && Judge(t[0], t[1]) == Ok(Player2Win)
    ensures Folded(t) == Ok([0, 1])
  {
    var s0: seq<nat> := [0];
    TwoFolded(t);
    assert s0 + [1] == [0, 1];
    assert Step(t, s0, 1) == Ok([0, 1]);
  }

  /** With equal total bets the better hand replaces the winners. */
  lemma BetterHandReplaces(t: seq<PlayerState>)
    requires |t| == 2 && InHand(t[0]) && InHand(t[1])
    requires t[0].totalBet == t[1].totalBet && Judge(t[0], t[1]) == Ok(Player2Win)
    ensures Folded(t) == Ok([1])
  {
    var s0: seq<nat> := [0];
    TwoFolded(t);
    assert Step(t, s0, 1) == Ok([1]);
  }
}
