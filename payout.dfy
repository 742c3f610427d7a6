/** Paying out a finished hand: distributeMoneyToWinners, identical in
    service/gameservice.go, service/game/gameservice.go and game/game.go,
    as functions of the players' states and of the seats GetWinnersAndLosers
    returned.  Every balance update is Go's wrapping uint64 `+=` or `-=`. */
module Payout {
  import opened GameError
  import opened Uint64
  import Int64
  import opened Players
  import opened Winners

  /** `GameBalance += x; TotalBalance += x`. */
  function Credit(s: PlayerState, x: u64): (r: PlayerState)
    ensures r.(gameBalance := s.gameBalance, totalBalance := s.totalBalance) == s
  {
    s.(gameBalance := Add(s.gameBalance, x), totalBalance := Add(s.totalBalance, x))
  }

  /** `GameBalance -= x; TotalBalance -= x`. */
  function Debit(s: PlayerState, x: u64): (r: PlayerState)
    ensures r.(gameBalance := s.gameBalance, totalBalance := s.totalBalance) == s
  {
    s.(gameBalance := Sub(s.gameBalance, x), totalBalance := Sub(s.totalBalance, x))
  }

  /** Modulo 2^64 a debit undoes a credit and a credit undoes a debit, and
      neither touches anything but the two balances. */
  lemma CreditDebitInverse(s: PlayerState, x: u64)
    ensures Debit(Credit(s, x), x) == s && Credit(Debit(s, x), x) == s
    ensures SameSeat(Credit(s, x), s.(gameBalance := Credit(s, x).gameBalance,
                                      totalBalance := Credit(s, x).totalBalance))
  {
    AddSub(s.gameBalance, x);
    AddSub(s.totalBalance, x);
  }

  /** A credit raises both balances by `x` and a debit lowers them by `x`,
      modulo 2^64. */
  lemma BalancesMoveByX(s: PlayerState, x: u64)
    ensures (Credit(s, x).gameBalance - s.gameBalance - x) % Modulus == 0
    ensures (Credit(s, x).totalBalance - s.totalBalance - x) % Modulus == 0
    ensures (Debit(s, x).gameBalance - s.gameBalance + x) % Modulus == 0
    ensures (Debit(s, x).totalBalance - s.totalBalance + x) % Modulus == 0
  {
    WrapsBy(s.gameBalance, x);
    WrapsBy(s.totalBalance, x);
  }

  lemma WrapsBy(a: u64, x: u64)
    ensures (Add(a, x) - a - x) % Modulus == 0 && (Sub(a, x) - a + x) % Modulus == 0
  {
    if a + x >= Modulus {
      assert Add(a, x) - a - x == -Modulus;
    }
    if a < x {
      assert Sub(a, x) - a + x == Modulus;
    }
  }

  lemma AddSub(a: u64, x: u64)
    ensures Sub(Add(a, x), x) == a && Add(Sub(a, x), x) == a
  {
  }

  /** `uint64((len(losers) * int(bet)) / len(tmpWinners))`: the conversion to
      Go's signed int, the product, which wraps, the quotient, which
      truncates toward zero, and the conversion back, which wraps. */
  function Reward(losers: nat, bet: u64, sharers: nat): (r: u64)
    requires sharers > 0
    ensures losers == 0 || bet == 0 ==> r == 0
  {
    var product := losers * Int64.Wrap(bet);
    assert losers == 0 || bet == 0 ==> product == 0 by {
      if bet == 0 {
        assert Int64.Wrap(bet) == 0;
      }
    }
    assert product == 0 ==> Int64.Quot(Int64.Wrap(product), sharers) == 0 by {
      if product == 0 {
        assert Int64.Wrap(product) == 0;
        assert 0 / sharers == 0;
      }
    }
    Uint64.Wrap(Int64.Quot(Int64.Wrap(product), sharers))
  }

  /** While the product stays below 2^63 the reward is the plain quotient. */
  lemma RewardExact(losers: nat, bet: u64, sharers: nat)
    requires sharers > 0 && losers * bet < Int64.Half
    ensures Reward(losers, bet, sharers) == losers * bet / sharers
  {
    var p := losers * bet;
    if losers == 0 {
      assert losers * Int64.Wrap(bet) == 0;
    } else {
      AtLeastOnce(losers, bet);
      assert Int64.Wrap(bet) == bet;
    }
    assert Int64.Wrap(losers * Int64.Wrap(bet)) == p;
    QuotientBound(p, sharers);
  }

  lemma AtLeastOnce(a: nat, b: nat)
    requires a >= 1
    ensures a * b >= b
  {
    assert a * b == (a - 1) * b + b;
  }

  lemma QuotientBound(p: nat, s: nat)
    requires s >= 1
    ensures 0 <= p / s <= p
  {
    AtLeastOnce(s, p / s);
  }

  /** Every seat of `seats`, in order, is credited `x`. */
  function CreditEach(t: seq<PlayerState>, seats: seq<nat>, x: u64): (r: seq<PlayerState>)
    requires AtTable(t, seats)
    ensures |r| == |t|
    decreases |seats|
  {
    if seats == [] then t
    else
      var u := CreditEach(t, seats[..|seats| - 1], x);
      var s := seats[|seats| - 1];
      u[s := Credit(u[s], x)]
  }

  /** Seat `i` is debited `x`, `n` times over. */
  function DebitTimes(t: seq<PlayerState>, i: nat, x: u64, n: nat): (r: seq<PlayerState>)
    requires i < |t|
    ensures |r| == |t|
    decreases n
  {
    if n == 0 then t
    else
      var u := DebitTimes(t, i, x, n - 1);
      u[i := Debit(u[i], x)]
  }

  /** The last winner loop: each seat of `seats` is credited
      `(losers · its own total bet) / m`. */
  function CreditShares(t: seq<PlayerState>, seats: seq<nat>, losers: nat, m: nat): (r: seq<PlayerState>)
    requires AtTable(t, seats) && m > 0
    ensures |r| == |t|
    decreases |seats|
  {
    if seats == [] then t
    else
      var u := CreditShares(t, seats[..|seats| - 1], losers, m);
      var s := seats[|seats| - 1];
      u[s := Credit(u[s], Reward(losers, u[s].totalBet, m))]
  }

  /** The loser loop: each seat of `losers`, in order, is debited its own
      total bet. */
  function DebitLosers(t: seq<PlayerState>, losers: seq<nat>): (r: seq<PlayerState>)
    requires AtTable(t, losers)
    ensures |r| == |t|
    decreases |losers|
  {
    if losers == [] then t
    else
      var u := DebitLosers(t, losers[..|losers| - 1]);
      var s := losers[|losers| - 1];
      u[s := Debit(u[s], u[s].totalBet)]
  }

  /** The side-pot loop's state: the players, and `tmpWinners`, the seats
      waiting for their share. */
  datatype Pots = Pots(t: seq<PlayerState>, sharers: seq<nat>)

  /** Round `i` of the side-pot loop.  Where the total bet steps up between
      winners `i - 1` and `i`, the waiting seats are each credited
      `(losers · bet of winner i-1) / number waiting`, winner `i` (not each
      later winner) is debited that amount once for every winner from `i`
      on, and the waiting list is emptied, winner `i` included; an empty
      waiting list there is Go's integer division by zero.  Otherwise
      winner `i` joins the waiting list. */
  function Boundary(p: Pots, w: seq<nat>, losers: nat, i: nat): (r: Outcome<Pots>)
    requires AtTable(p.t, w) && AtTable(p.t, p.sharers) && 1 <= i < |w|
    ensures !r.Fail?
    ensures r.Ok? ==> |r.value.t| == |p.t| && AtTable(p.t, r.value.sharers)
  {
    var prev := p.t[w[i - 1]].totalBet;
    if prev == p.t[w[i]].totalBet then Ok(Pots(p.t, p.sharers + [w[i]]))
    else if p.sharers == [] then Panic
    else
      var x := Reward(losers, prev, |p.sharers|);
      Ok(Pots(DebitTimes(CreditEach(p.t, p.sharers, x), w[i], x, |w| - i), []))
  }

  /** The side-pot loop after its rounds 1 .. i-1, starting with the first
      winner waiting. */
  function SidePots(t: seq<PlayerState>, w: seq<nat>, losers: nat, i: nat): (r: Outcome<Pots>)
    requires AtTable(t, w) && 1 <= i <= |w|
    ensures !r.Fail?
    ensures r.Ok? ==> |r.value.t| == |t| && AtTable(t, r.value.sharers)
    decreases i
  {
    if i == 1 then Ok(Pots(t, [w[0]]))
    else match SidePots(t, w, losers, i - 1)
      case Ok(p) => Boundary(p, w, losers, i - 1)
      case _ => Panic
  }

  /** distributeMoneyToWinners on the winners `w` (least bet first) and the
      losers `l`: a sole winner is credited the game's total bet minus its
      own; several winners go through the side-pot loop and the waiting ones
      take their shares; then every loser is debited its own total bet.
      No winner at all is Go's index out of range on `winners[0]`. */
  function Distribute(t: seq<PlayerState>, w: seq<nat>, l: seq<nat>, gameTotal: u64): (r: Outcome<seq<PlayerState>>)
    requires AtTable(t, w) && AtTable(t, l)
    ensures !r.Fail?
    ensures r.Ok? ==> |r.value| == |t|
  {
    if |w| == 1 then
      Ok(DebitLosers(t[w[0] := Credit(t[w[0]], Sub(gameTotal, t[w[0]].totalBet))], l))
    else if w == [] then Panic
    else match SidePots(t, w, |l|, |w|)
      case Ok(p) =>
        var paid := if p.sharers == [] then p.t else CreditShares(p.t, p.sharers, |l|, |p.sharers|);
        Ok(DebitLosers(paid, l))
      case _ => Panic
  }

  /** Once a round of the side-pot loop panics, the loop does. */
  lemma {:induction false} SidePotsStayPanicked(t: seq<PlayerState>, w: seq<nat>, losers: nat, i: nat, j: nat)
    requires AtTable(t, w) && 1 <= i <= j <= |w| && SidePots(t, w, losers, i) == Panic
    ensures SidePots(t, w, losers, j) == Panic
    decreases j - i
  {
    if i < j {
      SidePotsStayPanicked(t, w, losers, i, j - 1);
    }
  }

  /** ---- What the payout does ---- */

  predicate Unique(s: seq<nat>)
  {
    forall j, k | 0 <= j < k < |s| :: s[j] != s[k]
  }

  /** Each loser, once, pays exactly its own total bet; no other seat changes. */
  lemma {:induction false} DebitLosersPays(t: seq<PlayerState>, l: seq<nat>)
    requires AtTable(t, l) && Unique(l)
    ensures forall i | 0 <= i < |t| ::
      DebitLosers(t, l)[i] == if i in l then Debit(t[i], t[i].totalBet) else t[i]
    decreases |l|
  {
    if l != [] {
      var init := l[..|l| - 1];
      DebitLosersPays(t, init);
      forall i | 0 <= i < |t|
        ensures DebitLosers(t, l)[i] == if i in l then Debit(t[i], t[i].totalBet) else t[i]
      {
        assert i in l <==> i in init || i == l[|l| - 1];
        if i == l[|l| - 1] {
          assert i !in init;
        }
      }
    }
  }

  /** Each waiting seat, once, is credited its share of its own bet times
      the number of losers; no other seat changes. */
  lemma {:induction false} CreditSharesPays(t: seq<PlayerState>, s: seq<nat>, losers: nat, m: nat)
    requires AtTable(t, s) && Unique(s) && m > 0
    ensures forall i | 0 <= i < |t| ::
      CreditShares(t, s, losers, m)[i] == if i in s then Credit(t[i], Reward(losers, t[i].totalBet, m)) else t[i]
    decreases |s|
  {
    if s != [] {
      var init := s[..|s| - 1];
      CreditSharesPays(t, init, losers, m);
      forall i | 0 <= i < |t|
        ensures CreditShares(t, s, losers, m)[i] == if i in s then Credit(t[i], Reward(losers, t[i].totalBet, m)) else t[i]
      {
        assert i in s <==> i in init || i == s[|s| - 1];
        if i == s[|s| - 1] {
          assert i !in init;
        }
      }
    }
  }

  /** A sole winner is credited the game's total bet minus its own total bet,
      each loser is debited its own total bet, and nobody else is touched. */
  lemma SoleWinner(t: seq<PlayerState>, w: nat, l: seq<nat>, gameTotal: u64)
    requires w < |t| && AtTable(t, l) && Unique(l) && w !in l
    ensures var r := Distribute(t, [w], l, gameTotal);
      && r.Ok?
      && r.value[w] == Credit(t[w], Sub(gameTotal, t[w].totalBet))
      && forall i | 0 <= i < |t| && i != w ::
           r.value[i] == if i in l then Debit(t[i], t[i].totalBet) else t[i]
  {
    var u := t[w := Credit(t[w], Sub(gameTotal, t[w].totalBet))];
    DebitLosersPays(u, l);
  }

  /** The game's total bet is never increased while betting (the bet path
      adds only to the players' bets), so it is still 0 at the payout, and
      the sole winner's credit of `0 - own bet` wraps round: the winner pays
      its own total bet, like a loser. */
  lemma SoleWinnerPaysOwnBet(t: seq<PlayerState>, w: nat, l: seq<nat>)
    requires w < |t| && AtTable(t, l) && Unique(l) && w !in l
    ensures var r := Distribute(t, [w], l, 0);
      && r.Ok?
      && r.value[w].gameBalance == Sub(t[w].gameBalance, t[w].totalBet)
      && r.value[w].totalBalance == Sub(t[w].totalBalance, t[w].totalBet)
  {
    SoleWinner(t, w, l, 0);
    WrapNegate(t[w].gameBalance, t[w].totalBet);
    WrapNegate(t[w].totalBalance, t[w].totalBet);
  }

  lemma WrapNegate(a: u64, x: u64)
    ensures Add(a, Sub(0, x)) == Sub(a, x)
  {
  }

  /** With every winner on the same total bet, the side-pot loop only
      queues them. */
  lemma {:induction false} SidePotsFlat(t: seq<PlayerState>, w: seq<nat>, losers: nat, i: nat)
    requires AtTable(t, w) && 1 <= i <= |w|
    requires forall k | 0 <= k < |w| :: t[w[k]].totalBet == t[w[0]].totalBet
    ensures SidePots(t, w, losers, i) == Ok(Pots(t, w[..i]))
    decreases i
  {
    if i > 1 {
      SidePotsFlat(t, w, losers, i - 1);
      assert w[..i - 1] + [w[i - 1]] == w[..i];
    } else {
      assert w[..1] == [w[0]];
    }
  }

  /** Several winners on one total bet `T`: each is credited
      `(losers · T) / winners` (exactly that quotient while the product
      stays below 2^63), each loser is debited its own total bet, and
      nobody else is touched. */
  lemma EqualBets(t: seq<PlayerState>, w: seq<nat>, l: seq<nat>)
    requires AtTable(t, w) && AtTable(t, l) && Unique(w) && Unique(l) && |w| >= 2
    requires forall k | 0 <= k < |w| :: t[w[k]].totalBet == t[w[0]].totalBet
    requires forall k | 0 <= k < |w| :: w[k] !in l
    ensures var r := Distribute(t, w, l, 0);
            var x := Reward(|l|, t[w[0]].totalBet, |w|);
      && r.Ok?
      && (forall i | 0 <= i < |t| ::
            r.value[i] == if i in w then Credit(t[i], x)
                          else if i in l then Debit(t[i], t[i].totalBet)
                          else t[i])
      && (|l| * t[w[0]].totalBet < Int64.Half ==> x == |l| * t[w[0]].totalBet / |w|)
  {
    if |l| * t[w[0]].totalBet < Int64.Half {
      RewardExact(|l|, t[w[0]].totalBet, |w|);
    }
    SidePotsFlat(t, w, |l|, |w|);
    assert w[..|w|] == w;
    var paid := CreditShares(t, w, |l|, |w|);
    CreditSharesPays(t, w, |l|, |w|);
    DebitLosersPays(paid, l);
    forall i | 0 <= i < |t| && i in w
      ensures t[i].totalBet == t[w[0]].totalBet
    {
      var k :| 0 <= k < |w| && w[k] == i;
    }
  }

  /** ---- Where the side-pot loop goes wrong ---- */

  function Bettor(bet: u64): PlayerState
  {
    PlayerState(0, "p", true, false, false, false, 100, 100, bet, 0, [], 0, 0, [])
  }

  /** Winners on total bets 10, 20 and 20 (seats 0 to 2) and one loser on 20
      (seat 3).  At the step from 10 to 20 the all-in winner is credited 10,
      but seat 1 alone is debited 10 twice instead of seats 1 and 2 once
      each, and emptying the waiting list drops seat 1, so only seat 2 takes
      the last share: two winners with the same bet and the same hand end
      with 80 and 120. */
  lemma WrongWinnerDebited()
    ensures var t := [Bettor(10), Bettor(20), Bettor(20), Bettor(20)];
            var r := Distribute(t, [0, 1, 2], [3], 0);
      && r.Ok?
      && r.value[0].gameBalance == 110
      && r.value[1].gameBalance == 80
      && r.value[2].gameBalance == 120
      && r.value[3].gameBalance == 80
  {
    var t := [Bettor(10), Bettor(20), Bettor(20), Bettor(20)];
    var w: seq<nat> := [0, 1, 2];
    var p1 := Pots(t, [0]);
    assert SidePots(t, w, 1, 1) == Ok(p1);
    var c := CreditEach(t, [0], 10);
    assert c == t[0 := Credit(t[0], 10)] by {
      assert [0][..0] == [];
    }
    var u := DebitTimes(c, 1, 10, 2);
    assert u == c[1 := Debit(Debit(c[1], 10), 10)] by {
      assert DebitTimes(c, 1, 10, 1) == c[1 := Debit(c[1], 10)];
    }
    assert Boundary(p1, w, 1, 1) == Ok(Pots(u, []));
    var p2 := Pots(u, []);
    assert SidePots(t, w, 1, 2) == Ok(p2);
    assert u[1].totalBet == 20 && u[2].totalBet == 20;
    assert [] + [2] == [2];
    assert Boundary(p2, w, 1, 2) == Ok(Pots(u, [2]));
    assert SidePots(t, w, 1, 3) == Ok(Pots(u, [2]));
    var paid := CreditShares(u, [2], 1, 1);
    assert paid == u[2 := Credit(u[2], 20)] by {
      assert [2][..0] == [];
    }
    assert DebitLosers(paid, [3]) == paid[3 := Debit(paid[3], 20)] by {
      assert [3][..0] == [];
    }
  }

  /** Winners on total bets 10, 20 and 30: the step from 10 to 20 empties the
      waiting list, and the step from 20 to 30 divides by its length, 0. */
  lemma DividesByZero()
    ensures Distribute([Bettor(10), Bettor(20), Bettor(30), Bettor(30)], [0, 1, 2], [3], 0) == Panic
  {
    var t := [Bettor(10), Bettor(20), Bettor(30), Bettor(30)];
    var w: seq<nat> := [0, 1, 2];
    var p1 := Pots(t, [0]);
    assert SidePots(t, w, 1, 1) == Ok(p1);
    var u := DebitTimes(CreditEach(t, [0], 10), 1, 10, 2);
    assert Boundary(p1, w, 1, 1) == Ok(Pots(u, []));
    assert u[1].totalBet == 20 && u[2].totalBet == 30;
    assert SidePots(t, w, 1, 2) == Ok(Pots(u, []));
    assert SidePots(t, w, 1, 3) == Panic;
  }
}
