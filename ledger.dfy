/** The payout and the balance write-back as they run on the game's players:
    distributeMoneyToWinners and updatePlayersBalance of
    service/gameservice.go, service/game/gameservice.go and game/game.go.
    Each loop is proved to compute the matching function of module Payout,
    and the rollback and the memento updates are proved against CopySeats. */
module Ledger {
  import opened GameError
  import opened Uint64
  import opened Players
  import opened Winners
  import opened Games
  import opened Payout

  /** ---- The write-back as values ---- */

  /** The UserIdWithBalance list handed to UpdateMultipleBalance: each
      player's id and total balance, in the order given. */
  function Batch(t: seq<PlayerState>, seats: seq<nat>): (r: seq<(int, u64)>)
    requires AtTable(t, seats)
    ensures |r| == |seats|
    decreases |seats|
  {
    if seats == [] then []
    else
      var s := seats[|seats| - 1];
      Batch(t, seats[..|seats| - 1]) + [(t[s].id, t[s].totalBalance)]
  }

  /** Each seat of `seats`, in order, takes its state from `from`: the
      rollback loop (`from` the mementos) and the memento loop (`from` the
      players) both have this shape. */
  function CopySeats(into: seq<PlayerState>, from: seq<PlayerState>, seats: seq<nat>): (r: seq<PlayerState>)
    requires |from| == |into| && AtTable(into, seats)
    ensures |r| == |into|
    decreases |seats|
  {
    if seats == [] then into
    else
      var s := seats[|seats| - 1];
      CopySeats(into, from, seats[..|seats| - 1])[s := from[s]]
  }

  /** A named seat, however often named, ends with the state `from` gives
      it; every other seat keeps its own. */
  lemma {:induction false} CopySeatsIs(into: seq<PlayerState>, from: seq<PlayerState>, seats: seq<nat>)
    requires |from| == |into| && AtTable(into, seats)
    ensures forall i | 0 <= i < |into| ::
      CopySeats(into, from, seats)[i] == if i in seats then from[i] else into[i]
    decreases |seats|
  {
    if seats != [] {
      var init := seats[..|seats| - 1];
      CopySeatsIs(into, from, init);
      forall i | 0 <= i < |into|
        ensures CopySeats(into, from, seats)[i] == if i in seats then from[i] else into[i]
      {
        assert i in seats <==> i in init || i == seats[|seats| - 1];
      }
    }
  }

  /** Undoing twice is undoing once, and so is remembering twice. */
  lemma CopySeatsTwice(into: seq<PlayerState>, from: seq<PlayerState>, seats: seq<nat>)
    requires |from| == |into| && AtTable(into, seats)
    ensures CopySeats(CopySeats(into, from, seats), from, seats) == CopySeats(into, from, seats)
  {
    var once := CopySeats(into, from, seats);
    CopySeatsIs(into, from, seats);
    CopySeatsIs(once, from, seats);
  }

  /** ---- One seat at a time ---- */

  /** `GameBalance += x; TotalBalance += x` on the player in seat `i`. */
  method CreditSeat(g: Game, i: nat, x: u64)
    requires i < |g.players| && Distinct(g.players)
    modifies g.players[i]
    ensures g.Roster() == old(g.Roster())[i := Credit(old(g.Roster())[i], x)]
    ensures Mementos(g.players) == old(Mementos(g.players))
  {
    var p := g.players[i];
    p.gameBalance := Add(p.gameBalance, x);
    p.totalBalance := Add(p.totalBalance, x);
  }

  /** `GameBalance -= x; TotalBalance -= x` on the player in seat `i`. */
  method DebitSeat(g: Game, i: nat, x: u64)
    requires i < |g.players| && Distinct(g.players)
    modifies g.players[i]
    ensures g.Roster() == old(g.Roster())[i := Debit(old(g.Roster())[i], x)]
    ensures Mementos(g.players) == old(Mementos(g.players))
  {
    var p := g.players[i];
    p.gameBalance := Sub(p.gameBalance, x);
    p.totalBalance := Sub(p.totalBalance, x);
  }

  /** ---- distributeMoneyToWinners ---- */

  /** The loop crediting every waiting winner the same reward. */
  method CreditAll(g: Game, seats: seq<nat>, x: u64)
    requires AtTable(g.Roster(), seats) && Distinct(g.players)
    modifies set p | p in g.players
    ensures g.Roster() == CreditEach(old(g.Roster()), seats, x)
    ensures Mementos(g.players) == old(Mementos(g.players))
  {
    ghost var t := g.Roster();
    ghost var ms := Mementos(g.players);
    var k := 0;
    while k < |seats|
      invariant 0 <= k <= |seats|
      invariant g.Roster() == CreditEach(t, seats[..k], x)
      invariant Mementos(g.players) == ms
    {
      assert seats[..k + 1][..k] == seats[..k];
      CreditSeat(g, seats[k], x);
      k := k + 1;
    }
    assert seats[..k] == seats;
  }

  /** The loop `for j := i; j < len(winners); j++` that debits winner `i`
      (not winner `j`) the reward on every round. */
  method DebitRepeat(g: Game, w: seq<nat>, i: nat, x: u64)
    requires AtTable(g.Roster(), w) && i < |w| && Distinct(g.players)
    modifies set p | p in g.players
    ensures g.Roster() == DebitTimes(old(g.Roster()), w[i], x, |w| - i)
    ensures Mementos(g.players) == old(Mementos(g.players))
  {
    ghost var t := g.Roster();
    ghost var ms := Mementos(g.players);
    ghost var s := w[i];
    var j := i;
    while j < |w|
      invariant i <= j <= |w| && s < |t| == |g.players|
      invariant g.Roster() == DebitTimes(t, s, x, j - i)
      invariant Mementos(g.players) == ms
    {
      DebitSeat(g, w[i], x);
      j := j + 1;
    }
  }

  /** Round `i` of the side-pot loop, on the waiting seats `sharers`. */
  method SidePotStep(g: Game, w: seq<nat>, losers: nat, i: nat, sharers: seq<nat>) returns (r: Outcome<seq<nat>>)
    requires AtTable(g.Roster(), w) && AtTable(g.Roster(), sharers) && 1 <= i < |w| && Distinct(g.players)
    modifies set p | p in g.players
    ensures !r.Fail?
    ensures var b := Boundary(Pots(old(g.Roster()), sharers), w, losers, i);
      && (b.Panic? ==> r == Panic)
      && (b.Ok? ==> r == Ok(b.value.sharers) && g.Roster() == b.value.t)
    ensures Mementos(g.players) == old(Mementos(g.players))
  {
    var prev := g.players[w[i - 1]].totalBet;
    if prev == g.players[w[i]].totalBet {
      return Ok(sharers + [w[i]]);
    }
    if |sharers| == 0 {
      return Panic;
    }
    var x := Reward(losers, prev, |sharers|);
    CreditAll(g, sharers, x);
    DebitRepeat(g, w, i, x);
    r := Ok([]);
  }

  /** SidePotStep as round `i` of SidePots on the players `t`. */
  method SidePotRound(g: Game, ghost t: seq<PlayerState>, w: seq<nat>, losers: nat, i: nat, sharers: seq<nat>)
      returns (r: Outcome<seq<nat>>)
    requires AtTable(t, w) && 1 <= i < |w| && Distinct(g.players)
    requires SidePots(t, w, losers, i) == Ok(Pots(g.Roster(), sharers))
    modifies set p | p in g.players
    ensures !r.Fail?
    ensures r.Panic? ==> SidePots(t, w, losers, |w|) == Panic
    ensures r.Ok? ==> SidePots(t, w, losers, i + 1) == Ok(Pots(g.Roster(), r.value))
    ensures Mementos(g.players) == old(Mementos(g.players))
  {
    r := SidePotStep(g, w, losers, i, sharers);
    if r.Panic? {
      SidePotsStayPanicked(t, w, losers, i + 1, |w|);
    }
  }

  /** The side-pot loop over the winners, least bet first; the result is
      the list of winners still waiting for their share. */
  method SidePotLoop(g: Game, w: seq<nat>, losers: nat) returns (r: Outcome<seq<nat>>)
    requires AtTable(g.Roster(), w) && |w| >= 1 && Distinct(g.players)
    modifies set p | p in g.players
    ensures !r.Fail?
    ensures SidePots(old(g.Roster()), w, losers, |w|) == if r.Ok? then Ok(Pots(g.Roster(), r.value)) else Panic
    ensures Mementos(g.players) == old(Mementos(g.players))
  {
    ghost var t := g.Roster();
    ghost var ms := Mementos(g.players);
    var sharers := [w[0]];
    var i := 1;
    while i < |w|
      invariant 1 <= i <= |w|
      invariant SidePots(t, w, losers, i) == Ok(Pots(g.Roster(), sharers))
      invariant Mementos(g.players) == ms
    {
      var step := SidePotRound(g, t, w, losers, i, sharers);
      if step.Panic? {
        return Panic;
      }
      sharers := step.value;
      i := i + 1;
    }
    r := Ok(sharers);
  }

  /** The loop paying the winners still waiting: each takes
      `(losers · its own total bet) / number waiting`. */
  method ShareOut(g: Game, seats: seq<nat>, losers: nat)
    requires AtTable(g.Roster(), seats) && |seats| > 0 && Distinct(g.players)
    modifies set p | p in g.players
    ensures g.Roster() == CreditShares(old(g.Roster()), seats, losers, |seats|)
    ensures Mementos(g.players) == old(Mementos(g.players))
  {
    ghost var t := g.Roster();
    ghost var ms := Mementos(g.players);
    var k := 0;
    while k < |seats|
      invariant 0 <= k <= |seats|
      invariant g.Roster() == CreditShares(t, seats[..k], losers, |seats|)
      invariant Mementos(g.players) == ms
    {
      assert seats[..k + 1][..k] == seats[..k];
      var x := Reward(losers, g.players[seats[k]].totalBet, |seats|);
      CreditSeat(g, seats[k], x);
      k := k + 1;
    }
    assert seats[..k] == seats;
  }

  /** The loser loop: each loser is debited its own total bet. */
  method ChargeLosers(g: Game, l: seq<nat>)
    requires AtTable(g.Roster(), l) && Distinct(g.players)
    modifies set p | p in g.players
    ensures g.Roster() == DebitLosers(old(g.Roster()), l)
    ensures Mementos(g.players) == old(Mementos(g.players))
  {
    ghost var t := g.Roster();
    ghost var ms := Mementos(g.players);
    var k := 0;
    while k < |l|
      invariant 0 <= k <= |l|
      invariant g.Roster() == DebitLosers(t, l[..k])
      invariant Mementos(g.players) == ms
    {
      assert l[..k + 1][..k] == l[..k];
      DebitSeat(g, l[k], g.players[l[k]].totalBet);
      k := k + 1;
    }
    assert l[..k] == l;
  }

  /** The payout of distributeMoneyToWinners on the winners `w` and the
      losers `l`: it computes Distribute, and leaves the mementos alone. */
  method DistributeMoney(g: Game, w: seq<nat>, l: seq<nat>) returns (r: Outcome<()>)
    requires AtTable(g.Roster(), w) && AtTable(g.Roster(), l) && Distinct(g.players)
    modifies set p | p in g.players
    ensures var d := Distribute(old(g.Roster()), w, l, g.totalBet);
      && (d.Panic? ==> r == Panic)
      && (d.Ok? ==> r == Ok(()) && g.Roster() == d.value)
    ensures Mementos(g.players) == old(Mementos(g.players))
  {
    if |w| == 1 {
      var x := Sub(g.totalBet, g.players[w[0]].totalBet);
      CreditSeat(g, w[0], x);
      ChargeLosers(g, l);
      return Ok(());
    }
    if |w| == 0 {
      return Panic;
    }
    var waiting := SidePotLoop(g, w, |l|);
    if waiting.Panic? {
      return Panic;
    }
    if |waiting.value| > 0 {
      ShareOut(g, waiting.value, |l|);
    }
    ChargeLosers(g, l);
    r := Ok(());
  }

  /** distributeMoneyToWinners: the winners and losers of the showdown, then
      the payout.  A showdown error is swallowed as no winner and no loser,
      except in game/game.go, which returns it. */
  method DistributeMoneyToWinners(g: Game, version: Version) returns (r: Outcome<(seq<nat>, seq<nat>)>)
    requires Distinct(g.players)
    modifies set p | p in g.players
    ensures var wl := WinnersAndLosers(old(g.Roster()), version);
      && (wl.Panic? ==> r == Panic)
      && (wl.Fail? ==> && g.Roster() == old(g.Roster())
                       && r == if version == Legacy then Fail(wl.error) else Ok(([], [])))
      && (wl.Ok? ==>
            var d := Distribute(old(g.Roster()), wl.value.0, wl.value.1, g.totalBet);
            && (d.Panic? ==> r == Panic)
            && (d.Ok? ==> r == Ok(wl.value) && g.Roster() == d.value))
    ensures Mementos(g.players) == old(Mementos(g.players))
  {
    ghost var t := g.Roster();
    var wl := g.GetWinnersAndLosers(version);
    match wl {
      case Panic =>
        return Panic;
      case Fail(e) =>
        return if version == Legacy then Fail(e) else Ok(([], []));
      case Ok(pair) =>
        var paid := DistributeMoney(g, pair.0, pair.1);
        ghost var d := Distribute(t, pair.0, pair.1, g.totalBet);
        assert d.Ok? ==> paid == Ok(()) && g.Roster() == d.value;
        r := if paid.Panic? then Panic else Ok(pair);
    }
  }

  /** ---- updatePlayersBalance ---- */

  /** Undo on the player in seat `s`: the seat takes its memento's state. */
  method UndoSeat(g: Game, s: nat)
    requires s < |g.players| && Distinct(g.players)
    modifies g.players[s]
    ensures g.Roster() == old(g.Roster())[s := old(Mementos(g.players))[s]]
    ensures Mementos(g.players) == old(Mementos(g.players))
  {
    g.players[s].Undo();
  }

  /** SetMemento on the player in seat `s`: its memento takes the seat's state. */
  method RememberSeat(g: Game, s: nat)
    requires s < |g.players| && SeparateMementos(g.players)
    modifies g.players[s].memento
    ensures g.Roster() == old(g.Roster())
    ensures Mementos(g.players) == old(Mementos(g.players))[s := g.Roster()[s]]
  {
    var m := g.players[s].memento;
    g.players[s].SetMemento();
    forall j | 0 <= j < |g.players|
      ensures Mementos(g.players)[j] == old(Mementos(g.players))[s := g.Roster()[s]][j]
    {
      if j != s {
        assert g.players[j].memento != m;
      }
    }
  }

  /** The rollback loop: each seat of `seats`, in order, is undone. */
  method UndoSeats(g: Game, seats: seq<nat>)
    requires AtTable(g.Roster(), seats) && Distinct(g.players)
    modifies set p | p in g.players
    ensures g.Roster() == CopySeats(old(g.Roster()), old(Mementos(g.players)), seats)
    ensures Mementos(g.players) == old(Mementos(g.players))
  {
    ghost var t := g.Roster();
    ghost var ms := Mementos(g.players);
    var k := 0;
    while k < |seats|
      invariant 0 <= k <= |seats|
      invariant g.Roster() == CopySeats(t, ms, seats[..k])
      invariant Mementos(g.players) == ms
    {
      assert seats[..k + 1][..k] == seats[..k];
      UndoSeat(g, seats[k]);
      k := k + 1;
    }
    assert seats[..k] == seats;
  }

  /** The memento loop: each seat of `seats`, in order, is remembered. */
  method RememberSeats(g: Game, seats: seq<nat>)
    requires AtTable(g.Roster(), seats) && SeparateMementos(g.players)
    modifies set p | p in g.players :: p.memento
    ensures g.Roster() == old(g.Roster())
    ensures Mementos(g.players) == CopySeats(old(Mementos(g.players)), g.Roster(), seats)
  {
    ghost var ms := Mementos(g.players);
    var k := 0;
    while k < |seats|
      invariant 0 <= k <= |seats|
      invariant g.Roster() == old(g.Roster())
      invariant Mementos(g.players) == CopySeats(ms, g.Roster(), seats[..k])
    {
      assert seats[..k + 1][..k] == seats[..k];
      RememberSeat(g, seats[k]);
      k := k + 1;
    }
    assert seats[..k] == seats;
  }

  /** The loop building the batch for UpdateMultipleBalance. */
  method BuildBatch(g: Game, seats: seq<nat>) returns (batch: seq<(int, u64)>)
    requires AtTable(g.Roster(), seats)
    ensures batch == Batch(g.Roster(), seats)
  {
    batch := [];
    var k := 0;
    while k < |seats|
      invariant 0 <= k <= |seats|
      invariant batch == Batch(g.Roster(), seats[..k])
    {
      assert seats[..k + 1][..k] == seats[..k];
      var p := g.players[seats[k]];
      batch := batch + [(p.id, p.totalBalance)];
      k := k + 1;
    }
    assert seats[..k] == seats;
  }

  /** updatePlayersBalance: the batch of ids and total balances goes to the
      user store (`ledgerOk` says whether UpdateMultipleBalance succeeds).
      On failure every listed player is undone; on success, in the versions
      that `remember` (service/game and game/game.go), every listed player's
      memento takes its state.  Nothing else changes. */
  method UpdatePlayersBalance(g: Game, remember: bool, seats: seq<nat>, ledgerOk: bool)
      returns (batch: seq<(int, u64)>, r: Outcome<()>)
    requires AtTable(g.Roster(), seats) && Distinct(g.players) && SeparateMementos(g.players)
    modifies set p | p in g.players, set p | p in g.players :: p.memento
    ensures batch == Batch(old(g.Roster()), seats)
    ensures !ledgerOk ==> && r == Fail(LedgerError)
                          && g.Roster() == CopySeats(old(g.Roster()), old(Mementos(g.players)), seats)
                          && Mementos(g.players) == old(Mementos(g.players))
    ensures ledgerOk ==> && r == Ok(())
                         && g.Roster() == old(g.Roster())
                         && Mementos(g.players) == if remember then CopySeats(old(Mementos(g.players)), g.Roster(), seats)
                                                   else old(Mementos(g.players))
  {
    batch := BuildBatch(g, seats);
    if !ledgerOk {
      UndoSeats(g, seats);
      return batch, Fail(LedgerError);
    }
    if remember {
      RememberSeats(g, seats);
    }
    r := Ok(());
  }

  /** The write-back of DistributeMoneyToWinners in game/game.go: a sole
      winner calls updatePlayersBalance with no player at all, several
      winners with the winners and the losers; either way the winners and
      the losers are then undone on failure, or remembered on success. */
  method LegacyWriteBack(g: Game, w: seq<nat>, l: seq<nat>, ledgerOk: bool)
      returns (batch: seq<(int, u64)>, r: Outcome<()>)
    requires AtTable(g.Roster(), w) && AtTable(g.Roster(), l)
    requires Distinct(g.players) && SeparateMementos(g.players)
    modifies set p | p in g.players, set p | p in g.players :: p.memento
    ensures batch == if |w| == 1 then [] else Batch(old(g.Roster()), w + l)
    ensures !ledgerOk ==> && r == Fail(LedgerError)
                          && g.Roster() == CopySeats(old(g.Roster()), old(Mementos(g.players)), w + l)
                          && Mementos(g.players) == old(Mementos(g.players))
    ensures ledgerOk ==> && r == Ok(())
                         && g.Roster() == old(g.Roster())
                         && Mementos(g.players) == CopySeats(old(Mementos(g.players)), g.Roster(), w + l)
  {
    ghost var t := g.Roster();
    ghost var ms := Mementos(g.players);
    var seats := w + l;
    assert AtTable(t, seats);
    if |w| == 1 {
      batch, r := UpdatePlayersBalance(g, true, [], ledgerOk);
    } else {
      batch, r := UpdatePlayersBalance(g, true, seats, ledgerOk);
    }
    if r.Fail? {
      UndoSeats(g, seats);
      CopySeatsTwice(t, ms, seats);
    } else {
      RememberSeats(g, seats);
      CopySeatsTwice(ms, t, seats);
    }
  }
}
