/** Bet, the request that carries one player's bet, in its three versions
    (service/gameservice.go, service/game/gameservice.go and game/game.go):
    handleBet, then the street the table moves to, and at the end of the
    river round the payout, the write to the user store and the reset of the
    table.  The answers of the stores are parameters (`Writes`). */
module Service {
  import opened GameError
  import opened Uint64
  import opened Players
  import opened Table
  import opened Winners
  import opened Games
  import opened Payout
  import opened Ledger
  import opened Betting
  import Deck

  datatype Option<T> = None | Some(value: T)

  /** BetResponse: handleBet's seven results, the street the response
      announces (unset at the river before its round ends), the winners'
      nicknames, and, in game/game.go only, the error of a store that failed
      after the bet itself succeeded. */
  datatype BetResponse = BetResponse(reply: BetReply, gameStatus: Option<Status>, winners: seq<string>, error: Option<Error>)

  /** Whether each store write of a Bet succeeds, in the order they happen:
      the save inside handleBet, the balance batch, and the three saves
      game/game.go makes at the end of a hand (after removeLeftPlayers,
      after clearPlayersCurrentBet, and last); the other versions save once
      at the end, as `final`. */
  datatype Writes = Writes(bet: bool, ledger: bool, removal: bool, clearing: bool, final: bool)

  /** ---- The streets ---- */

  /** The position of a street in a hand. */
  function Rank(s: Status): nat
  {
    match s
    case FreeFlop => 0
    case Flop => 1
    case Turn => 2
    case River => 3
    case GameEnd => 4
  }

  /** The street a response announces: the one after the table's, whether or
      not the round has ended, except at the river, where GameEnd is
      announced only once the round ends, and after GameEnd, where nothing is. */
  function Announced(s: Status, isBetEnd: bool): (r: Option<Status>)
    ensures r.Some? ==> Rank(r.value) == Rank(s) + 1
    ensures r.None? <==> s == GameEnd || (s == River && !isBetEnd)
  {
    match s
    case FreeFlop => Some(Flop)
    case Flop => Some(Turn)
    case Turn => Some(River)
    case River => if isBetEnd then Some(GameEnd) else None
    case GameEnd => None
  }

  /** The table's street after the bet: the announced one when the round
      ended, and otherwise the same. */
  function NextStreet(s: Status, isBetEnd: bool): Status
  {
    var a := Announced(s, isBetEnd);
    if isBetEnd && a.Some? then a.value else s
  }

  /** The table moves on only at the end of a round, and then by exactly
      one street, until the hand has ended. */
  lemma StreetsInOrder(s: Status, isBetEnd: bool)
    ensures !isBetEnd ==> NextStreet(s, isBetEnd) == s
    ensures isBetEnd && s != GameEnd ==> Rank(NextStreet(s, isBetEnd)) == Rank(s) + 1
    ensures isBetEnd && s == GameEnd ==> NextStreet(s, isBetEnd) == GameEnd
  {
  }

  /** ---- The end of a hand ---- */

  /** The winners' nicknames, in the winners' order. */
  function Names(t: seq<PlayerState>, seats: seq<nat>): (r: seq<string>)
    requires AtTable(t, seats)
    ensures |r| == |seats| && forall k | 0 <= k < |seats| :: r[k] == t[seats[k]].nickname
  {
    seq(|seats|, k requires 0 <= k < |seats| => t[seats[k]].nickname)
  }

  /** The loop that collects the winners' nicknames for the response. */
  method NamesOf(g: Game, w: seq<nat>) returns (names: seq<string>)
    requires AtTable(g.Roster(), w)
    ensures names == Names(g.Roster(), w)
  {
    names := [];
    var k := 0;
    while k < |w|
      invariant 0 <= k <= |w|
      invariant names == Names(g.Roster(), w[..k])
    {
      names := names + [g.players[w[k]].nickname];
      k := k + 1;
    }
    assert w[..k] == w;
  }

  /** distributeMoneyToWinners on the players' states: the winners, the
      losers and the players after the payout.  When the showdown has no
      player, service/gameservice.go and service/game pay nobody, while
      game/game.go returns the error. */
  function PayoutSpec(v: Version, t: seq<PlayerState>, total: u64): (r: Outcome<(seq<nat>, seq<nat>, seq<PlayerState>)>)
    ensures r.Ok? ==> AtTable(t, r.value.0) && AtTable(t, r.value.1) && |r.value.2| == |t|
    ensures r.Fail? ==> v == Legacy
  {
    match WinnersAndLosers(t, v)
    case Ok(wl) =>
      (match Distribute(t, wl.0, wl.1, total)
       case Ok(t1) => Ok((wl.0, wl.1, t1))
       case _ => Panic)
    case Fail(e) => if v == Legacy then Fail(e) else Ok(([], [], t))
    case Panic => Panic
  }

  lemma Joined(t: seq<PlayerState>, w: seq<nat>, l: seq<nat>)
    requires AtTable(t, w) && AtTable(t, l)
    ensures AtTable(t, w + l)
  {
  }

  /** The last error a store reported: a failed write replaces the earlier one. */
  function Latest(e: Option<Error>, ok: bool): Option<Error>
  {
    if ok then e else Some(StoreError)
  }

  /** distributeMoneyToWinners and updatePlayersBalance in
      service/gameservice.go and service/game: the payout, then the batch of
      the winners and the losers; a failed batch undoes them and is the
      error.  The result is the winners' nicknames, and the players. */
  function SettleSpec(v: Version, t: seq<PlayerState>, pm: seq<PlayerState>, total: u64, ledgerOk: bool)
    : (r: (Outcome<seq<string>>, seq<PlayerState>))
    requires |pm| == |t|
    ensures |r.1| == |t|
  {
    match PayoutSpec(v, t, total)
    case Ok(p) =>
      var (w, l, t1) := p;
      Joined(t1, w, l);
      if ledgerOk then (Ok(Names(t1, w)), t1) else (Fail(LedgerError), CopySeats(t1, pm, w + l))
    case _ => (Panic, t)
  }

  /** The end of the hand in service/gameservice.go: the game stops at
      GameEnd, the winners are paid and the balances go to the user store,
      and InitGame resets the table for the next hand with the deck `deck`
      before the last save. */
  function EntityEndSpec(s: Snapshot, pm: seq<PlayerState>, resp: BetResponse, wr: Writes, deck: Deck.Deck)
    : (r: (Outcome<BetResponse>, Snapshot))
    requires |pm| == |s.t|
    ensures !r.0.Panic? ==> !r.1.f.isStarted
    ensures r.0.Ok? ==> r.0.value.reply == resp.reply && r.1.f.status == FreeFlop && r.1.f.deck == deck
                        && r.1.f.totalBet == 0 && r.1.f.currentBet == 0
  {
    var f1 := s.f.(isStarted := false, status := GameEnd);
    var (n, t1) := SettleSpec(Entity, s.t, pm, s.f.totalBet, wr.ledger);
    match n
    case Ok(names) =>
      var e := NextHandSpec(Snapshot(t1, f1), resp, names, wr.final, deck);
      if e.0.Panic? then (Panic, s) else e
    case Fail(e) => (Fail(e), Snapshot(t1, f1))
    case Panic => (Panic, s)
  }

  /** InitGame with the deck `deck` and the last save of service/gameservice.go,
      after the winners `names` are paid: the players who left go, the others
      start a new hand, the table bets are zeroed and the hand starts over
      at FreeFlop. */
  function NextHandSpec(s: Snapshot, resp: BetResponse, names: seq<string>, final: bool, deck: Deck.Deck)
    : (r: (Outcome<BetResponse>, Snapshot))
    ensures !r.0.Panic? ==>
      && r.1.f.status == FreeFlop && !r.1.f.isStarted && r.1.f.deck == deck
      && r.1.f.totalBet == 0 && r.1.f.currentBet == 0
      && |r.1.t| == |s.t| - |LeftSeats(s.t)|
    ensures r.0.Ok? <==> final && !r.0.Panic?
    ensures r.0.Ok? ==> r.0.value == resp.(winners := names)
  {
    match RemoveLeft(s.t, s.f.sb, s.f.bb)
    case Ok(rl) =>
      var f2 := s.f.(totalBet := 0, currentBet := 0, isStarted := false, deck := deck, status := FreeFlop,
                     isFirstPlayerBet := false, sb := rl.1, bb := rl.2);
      (if final then Ok(resp.(winners := names)) else Fail(StoreError),
       Snapshot(MapStates(NewHand, rl.0), f2))
    case _ => (Panic, s)
  }

  /** The table after a hand in service/game and in game/game.go: the
      players who left removed, every current bet cleared and both table
      bets zeroed. */
  function ClearSpec(s: Snapshot): (r: Outcome<Snapshot>)
    ensures !r.Fail?
    ensures r.Ok? ==>
      && |r.value.t| == |s.t| - |LeftSeats(s.t)|
      && (forall k | 0 <= k < |r.value.t| :: r.value.t[k].currentBet == 0)
      && r.value.f.currentBet == 0 && r.value.f.totalBet == 0 && r.value.f.status == s.f.status
  {
    match RemoveLeft(s.t, s.f.sb, s.f.bb)
    case Ok(rl) => Ok(Snapshot(MapStates(ClearedBet, rl.0), s.f.(sb := rl.1, bb := rl.2, currentBet := 0, totalBet := 0)))
    case _ => Panic
  }

  /** The end of the hand in service/game: GameEnd, the payout and the
      balances (remembered on success), the players who left removed, every
      current bet cleared, both table bets zeroed, and a save. */
  function ServiceEndSpec(s: Snapshot, pm: seq<PlayerState>, resp: BetResponse, wr: Writes)
    : (r: (Outcome<BetResponse>, Snapshot))
    requires |pm| == |s.t|
    ensures !r.0.Panic? ==> r.1.f.status == GameEnd
    ensures r.0.Ok? ==> r.0.value.reply == resp.reply && r.1.f.totalBet == 0 && r.1.f.currentBet == 0
  {
    var f1 := s.f.(status := GameEnd);
    var (n, t1) := SettleSpec(ServiceGame, s.t, pm, s.f.totalBet, wr.ledger);
    match n
    case Ok(names) =>
      (match ClearSpec(Snapshot(t1, f1))
       case Ok(s2) => (if wr.final then Ok(resp.(winners := names)) else Fail(StoreError), s2)
       case _ => (Panic, s))
    case Fail(e) => (Fail(e), Snapshot(t1, f1))
    case Panic => (Panic, s)
  }

  /** The end of the hand in game/game.go: the same steps as service/game,
      but no error stops them; the last one is carried in the response,
      which reports no winner when the payout failed. */
  function LegacyEndSpec(s: Snapshot, pm: seq<PlayerState>, resp: BetResponse, wr: Writes)
    : (r: (Outcome<BetResponse>, Snapshot))
    requires |pm| == |s.t|
    ensures !r.0.Fail?
    ensures r.0.Ok? ==> r.0.value.reply == resp.reply && r.1.f.status == GameEnd
                        && r.1.f.totalBet == 0 && r.1.f.currentBet == 0
  {
    var f1 := s.f.(status := GameEnd);
    match LegacyPaid(s.t, pm, s.f.totalBet, wr.ledger)
    case Ok(paid) =>
      var (t1, names, e1) := paid;
      (match ClearSpec(Snapshot(t1, f1))
       case Ok(s2) => (Ok(resp.(winners := names, error := Latest(Latest(Latest(e1, wr.removal), wr.clearing), wr.final))), s2)
       case _ => (Panic, s))
    case _ => (Panic, s)
  }

  /** distributeMoneyToWinners of game/game.go: the players, the winners'
      nicknames and the error.  A showdown without players is the error, and
      a failed balance batch undoes the winners and the losers and reports
      no winner. */
  function LegacyPaid(t: seq<PlayerState>, pm: seq<PlayerState>, total: u64, ledgerOk: bool)
    : (r: Outcome<(seq<PlayerState>, seq<string>, Option<Error>)>)
    requires |pm| == |t|
    ensures !r.Fail? && (r.Ok? ==> |r.value.0| == |t|)
  {
    match PayoutSpec(Legacy, t, total)
    case Fail(e) => Ok((t, [], Some(e)))
    case Ok(p) =>
      var (w, l, t0) := p;
      Joined(t0, w, l);
      if ledgerOk then Ok((t0, Names(t0, w), None)) else Ok((CopySeats(t0, pm, w + l), [], Some(LedgerError)))
    case Panic => Panic
  }

  /** Bet on the players `s.t` and the fields `s.f`, given the players'
      mementos `pm`, the game's memento `gm` and the deck `deck` a reset
      would take: handleBet, then the street; at the end of the river round,
      the end of the hand. */
  function BetSpec(v: Version, s: Snapshot, pm: seq<PlayerState>, gm: GameFields, info: BetInfo, wr: Writes, deck: Deck.Deck)
    : (r: (Outcome<BetResponse>, Snapshot))
    requires |pm| == |s.t|
    ensures var h := HandleBetSpec(v, s, pm, gm, info, wr.bet);
      && (!h.0.Ok? ==> r.1 == h.1 && r.0 == if h.0.Panic? then Panic else Fail(h.0.error))
      && (r.0.Ok? ==> h.0.Ok? && r.0.value.reply == h.0.value)
  {
    var (h, s1) := HandleBetSpec(v, s, pm, gm, info, wr.bet);
    match h
    case Ok(reply) => StreetSpec(v, s1, pm, reply, wr, deck)
    case Fail(e) => (Fail(e), s1)
    case Panic => (Panic, s1)
  }

  /** After a bet that `reply` answers: the street the response announces,
      and the next street, or at the end of the river round the end of the
      hand. */
  function StreetSpec(v: Version, s: Snapshot, pm: seq<PlayerState>, reply: BetReply, wr: Writes, deck: Deck.Deck)
    : (r: (Outcome<BetResponse>, Snapshot))
    requires |pm| == |s.t|
    ensures r.0.Ok? ==> r.0.value.reply == reply && r.0.value.gameStatus == Announced(s.f.status, reply.isBetEnd)
    ensures !(s.f.status == River && reply.isBetEnd) ==>
      r.0.Ok? && r.1.t == s.t && r.1.f == s.f.(status := NextStreet(s.f.status, reply.isBetEnd))
  {
    var resp := BetResponse(reply, Announced(s.f.status, reply.isBetEnd), [], None);
    if s.f.status == River && reply.isBetEnd then
      if v == Entity then EntityEndSpec(s, pm, resp, wr, deck)
      else if v == ServiceGame then ServiceEndSpec(s, pm, resp, wr)
      else LegacyEndSpec(s, pm, resp, wr)
    else (Ok(resp), Snapshot(s.t, s.f.(status := NextStreet(s.f.status, reply.isBetEnd))))
  }

  /** ---- Bet on the game ---- */

  /** The payout and the balance batch of service/gameservice.go (which
      does not remember the new balances) and of service/game (which does). */
  method Settle(g: Game, v: Version, ledgerOk: bool) returns (r: Outcome<seq<string>>)
    requires v != Legacy && Distinct(g.players) && SeparateMementos(g.players)
    modifies set p | p in g.players, set p | p in g.players :: p.memento
    ensures var e := SettleSpec(v, old(g.Roster()), old(Mementos(g.players)), g.totalBet, ledgerOk);
      r == e.0 && (!r.Panic? ==> g.Roster() == e.1)
  {
    ghost var t := g.Roster();
    ghost var pm := Mementos(g.players);
    var wl := DistributeMoneyToWinners(g, v);
    if wl.Panic? {
      return Panic;
    }
    assert wl.Ok?;
    var w, l := wl.value.0, wl.value.1;
    assert PayoutSpec(v, t, g.totalBet) == Ok((w, l, g.Roster()));
    assert Mementos(g.players) == pm;
    r := Books(g, v == ServiceGame, w, l, ledgerOk);
  }

  /** updatePlayersBalance after the payout to the winners `w` and the
      losers `l`: the winners' nicknames, or the undone players and the
      ledger's error. */
  method Books(g: Game, remember: bool, w: seq<nat>, l: seq<nat>, ledgerOk: bool) returns (r: Outcome<seq<string>>)
    requires AtTable(g.Roster(), w) && AtTable(g.Roster(), l)
    requires Distinct(g.players) && SeparateMementos(g.players)
    modifies set p | p in g.players, set p | p in g.players :: p.memento
    ensures ledgerOk ==> r == Ok(Names(old(g.Roster()), w)) && g.Roster() == old(g.Roster())
    ensures !ledgerOk ==> r == Fail(LedgerError) && g.Roster() == CopySeats(old(g.Roster()), old(Mementos(g.players)), w + l)
  {
    Joined(g.Roster(), w, l);
    var batch, u := UpdatePlayersBalance(g, remember, w + l, ledgerOk);
    if u.Fail? {
      return Fail(LedgerError);
    }
    var names := NamesOf(g, w);
    r := Ok(names);
  }

  /** The end of the hand in service/gameservice.go, on the game. */
  method EntityEnd(g: Game, resp: BetResponse, wr: Writes, picks: seq<int>) returns (r: Outcome<BetResponse>)
    requires Distinct(g.players) && SeparateMementos(g.players) && Deck.ShufflePicks(picks, 52)
    modifies g, set p | p in g.players, set p | p in g.players :: p.memento
    ensures var e := EntityEndSpec(old(Snap(g)), old(Mementos(g.players)), resp, wr, g.deck);
      r == e.0 && (!r.Panic? ==> Snap(g) == e.1)
    ensures g.deck == old(g.deck) || (fresh(g.deck) && multiset(g.deck.cards) == multiset(Deck.FullDeck()))
  {
    ghost var s0 := Snap(g);
    ghost var pm := Mementos(g.players);
    g.isStarted, g.status := false, GameEnd;
    ghost var f1 := g.Fields();
    assert f1 == s0.f.(isStarted := false, status := GameEnd);
    assert g.Roster() == s0.t && Mementos(g.players) == pm;
    var n := Settle(g, Entity, wr.ledger);
    ghost var st := SettleSpec(Entity, s0.t, pm, s0.f.totalBet, wr.ledger);
    assert g.Fields() == f1;
    if n.Panic? {
      return Panic;
    }
    assert g.Roster() == st.1;
    if n.Fail? {
      return Fail(n.error);
    }
    r := NextHand(g, resp, n.value, wr.final, picks);
  }

  /** The end of EntityEnd: InitGame, then the answer of the last save. */
  method NextHand(g: Game, resp: BetResponse, names: seq<string>, final: bool, picks: seq<int>)
      returns (r: Outcome<BetResponse>)
    requires Deck.ShufflePicks(picks, 52)
    modifies g, set p | p in g.players
    ensures var e := NextHandSpec(old(Snap(g)), resp, names, final, g.deck);
      r == e.0 && (!r.Panic? ==> Snap(g) == e.1)
    ensures fresh(g.deck) && multiset(g.deck.cards) == multiset(Deck.FullDeck())
    ensures g.Fixed() == old(g.Fixed())
  {
    var init := g.InitGame(picks);
    if init.Panic? {
      return Panic;
    }
    r := if final then Ok(resp.(winners := names)) else Fail(StoreError);
  }

  /** removeLeftPlayers, clearPlayersCurrentBet and the two zeroed bets that
      end a hand in service/game and in game/game.go. */
  method ClearTable(g: Game) returns (r: Outcome<()>)
    modifies g, set p | p in g.players
    ensures g.deck == old(g.deck) && g.memento == old(g.memento)
    ensures var c := ClearSpec(old(Snap(g)));
      && (!c.Ok? ==> r == Panic)
      && (c.Ok? ==> r == Ok(()) && Snap(g) == c.value)
  {
    r := g.RemoveLeftPlayers();
    if r.Panic? {
      return;
    }
    ClearBets(g);
  }

  /** clearPlayersCurrentBet and the two zeroed table bets. */
  method ClearBets(g: Game)
    modifies g, set p | p in g.players
    ensures Snap(g) == Snapshot(MapStates(ClearedBet, old(g.Roster())), old(g.Fields()).(currentBet := 0, totalBet := 0))
    ensures g.Fixed() == old(g.Fixed())
  {
    g.ClearPlayersCurrentBet();
    g.currentBet, g.totalBet := 0, 0;
  }

  /** The end of the hand in service/game, on the game. */
  method ServiceEnd(g: Game, resp: BetResponse, wr: Writes) returns (r: Outcome<BetResponse>)
    requires Distinct(g.players) && SeparateMementos(g.players)
    modifies g, set p | p in g.players, set p | p in g.players :: p.memento
    ensures var e := ServiceEndSpec(old(Snap(g)), old(Mementos(g.players)), resp, wr);
      r == e.0 && (!r.Panic? ==> Snap(g) == e.1)
    ensures g.deck == old(g.deck)
  {
    ghost var s0 := Snap(g);
    ghost var pm := Mementos(g.players);
    g.status := GameEnd;
    ghost var f1 := g.Fields();
    assert f1 == s0.f.(status := GameEnd);
    assert g.Roster() == s0.t && Mementos(g.players) == pm;
    var n := Settle(g, ServiceGame, wr.ledger);
    ghost var st := SettleSpec(ServiceGame, s0.t, pm, s0.f.totalBet, wr.ledger);
    if !n.Ok? {
      assert n.Fail? ==> Snap(g) == Snapshot(st.1, f1);
      return if n.Panic? then Panic else Fail(n.error);
    }
    assert g.Roster() == st.1;
    var c := ClearTable(g);
    if c.Panic? {
      return Panic;
    }
    r := if wr.final then Ok(resp.(winners := n.value)) else Fail(StoreError);
  }

  /** A showdown error is reported with the players as they were. */
  lemma LegacyPaidFail(t: seq<PlayerState>, pm: seq<PlayerState>, total: u64, ledgerOk: bool, e: Error)
    requires |pm| == |t| && PayoutSpec(Legacy, t, total) == Fail(e)
    ensures LegacyPaid(t, pm, total, ledgerOk) == Ok((t, [], Some(e)))
  {
  }

  /** After a payout, the balance batch decides between the winners' names
      and the undone players. */
  lemma LegacyPaidOk(t: seq<PlayerState>, pm: seq<PlayerState>, total: u64, ledgerOk: bool,
                     w: seq<nat>, l: seq<nat>, t1: seq<PlayerState>)
    requires |pm| == |t| && PayoutSpec(Legacy, t, total) == Ok((w, l, t1))
    ensures LegacyPaid(t, pm, total, ledgerOk)
            == if ledgerOk then Ok((t1, Names(t1, w), None)) else Ok((CopySeats(t1, pm, w + l), [], Some(LedgerError)))
  {
  }

  /** distributeMoneyToWinners of game/game.go on the game: the winners'
      nicknames and the error it reports. */
  method LegacyPay(g: Game, ledgerOk: bool) returns (r: Outcome<(seq<string>, Option<Error>)>)
    requires Distinct(g.players) && SeparateMementos(g.players)
    modifies set p | p in g.players, set p | p in g.players :: p.memento
    ensures var p := LegacyPaid(old(g.Roster()), old(Mementos(g.players)), g.totalBet, ledgerOk);
      && !r.Fail? && (p.Panic? <==> r.Panic?)
      && (r.Ok? ==> p == Ok((g.Roster(), r.value.0, r.value.1)))
  {
    ghost var t := g.Roster();
    ghost var pm := Mementos(g.players);
    var wl := DistributeMoneyToWinners(g, Legacy);
    if wl.Panic? {
      return Panic;
    }
    if wl.Fail? {
      LegacyPaidFail(t, pm, g.totalBet, ledgerOk, wl.error);
      return Ok(([], Some(wl.error)));
    }
    var w, l := wl.value.0, wl.value.1;
    LegacyPaidOk(t, pm, g.totalBet, ledgerOk, w, l, g.Roster());
    assert Mementos(g.players) == pm;
    var names, e := LegacyBooks(g, w, l, ledgerOk);
    r := Ok((names, e));
  }

  /** The balance batch of game/game.go after the payout to the winners `w`
      and the losers `l`: the winners' nicknames and no error, or the undone
      players, no winner and the ledger's error. */
  method LegacyBooks(g: Game, w: seq<nat>, l: seq<nat>, ledgerOk: bool) returns (names: seq<string>, e: Option<Error>)
    requires AtTable(g.Roster(), w) && AtTable(g.Roster(), l)
    requires Distinct(g.players) && SeparateMementos(g.players)
    modifies set p | p in g.players, set p | p in g.players :: p.memento
    ensures ledgerOk ==> names == Names(old(g.Roster()), w) && e == None && g.Roster() == old(g.Roster())
    ensures !ledgerOk ==> && names == [] && e == Some(LedgerError)
                          && g.Roster() == CopySeats(old(g.Roster()), old(Mementos(g.players)), w + l)
  {
    var batch, u := LegacyWriteBack(g, w, l, ledgerOk);
    if u.Fail? {
      return [], Some(LedgerError);
    }
    names := NamesOf(g, w);
    e := None;
  }

  /** The end of the hand in game/game.go, on the game. */
  method LegacyEnd(g: Game, resp: BetResponse, wr: Writes) returns (r: Outcome<BetResponse>)
    requires Distinct(g.players) && SeparateMementos(g.players)
    modifies g, set p | p in g.players, set p | p in g.players :: p.memento
    ensures var e := LegacyEndSpec(old(Snap(g)), old(Mementos(g.players)), resp, wr);
      r == e.0 && (!r.Panic? ==> Snap(g) == e.1)
    ensures g.deck == old(g.deck)
  {
    ghost var s0 := Snap(g);
    ghost var pm := Mementos(g.players);
    g.status := GameEnd;
    ghost var f1 := g.Fields();
    assert f1 == s0.f.(status := GameEnd);
    assert g.Roster() == s0.t && Mementos(g.players) == pm;
    var paid := LegacyPay(g, wr.ledger);
    if paid.Panic? {
      return Panic;
    }
    var (names, e) := paid.value;
    assert LegacyPaid(s0.t, pm, s0.f.totalBet, wr.ledger) == Ok((g.Roster(), names, e));
    var c := ClearTable(g);
    if c.Panic? {
      return Panic;
    }
    r := Ok(resp.(winners := names, error := Latest(Latest(Latest(e, wr.removal), wr.clearing), wr.final)));
  }

  /** Bet: it does what BetSpec says.  The deck it leaves is the one it
      found, the one a rollback to the game's memento brings back, or, in
      service/gameservice.go at the end of a hand, a new full deck. */
  method Bet(g: Game, v: Version, info: BetInfo, wr: Writes, picks: seq<int>) returns (r: Outcome<BetResponse>)
    requires Distinct(g.players) && SeparateMementos(g.players) && Deck.ShufflePicks(picks, 52)
    modifies g, set p | p in g.players, set p | p in g.players :: p.memento
    ensures var e := BetSpec(v, old(Snap(g)), old(Mementos(g.players)), old(g.memento.fields), info, wr, g.deck);
      r == e.0 && (!r.Panic? ==> Snap(g) == e.1)
    ensures || g.deck == old(g.deck) || g.deck == old(g.memento.fields.deck)
            || (fresh(g.deck) && multiset(g.deck.cards) == multiset(Deck.FullDeck()))
  {
    ghost var s0 := Snap(g);
    ghost var pm := Mementos(g.players);
    ghost var gm := g.memento.fields;
    var h := HandleBet(g, v, info, wr.bet);
    ghost var s1 := Snap(g);
    assert (h, s1) == HandleBetSpec(v, s0, pm, gm, info, wr.bet);
    assert Mementos(g.players) == pm;
    if !h.Ok? {
      r := if h.Panic? then Panic else Fail(h.error);
      return;
    }
    r := AfterBet(g, v, h.value, wr, picks);
  }

  /** The rest of Bet once handleBet has answered `reply`. */
  method AfterBet(g: Game, v: Version, reply: BetReply, wr: Writes, picks: seq<int>) returns (r: Outcome<BetResponse>)
    requires Distinct(g.players) && SeparateMementos(g.players) && Deck.ShufflePicks(picks, 52)
    modifies g, set p | p in g.players, set p | p in g.players :: p.memento
    ensures var e := StreetSpec(v, old(Snap(g)), old(Mementos(g.players)), reply, wr, g.deck);
      r == e.0 && (!r.Panic? ==> Snap(g) == e.1)
    ensures g.deck == old(g.deck) || (fresh(g.deck) && multiset(g.deck.cards) == multiset(Deck.FullDeck()))
  {
    var resp := BetResponse(reply, Announced(g.status, reply.isBetEnd), [], None);
    if g.status == River && reply.isBetEnd {
      if v == Entity {
        r := EntityEnd(g, resp, wr, picks);
      } else if v == ServiceGame {
        r := ServiceEnd(g, resp, wr);
      } else {
        r := LegacyEnd(g, resp, wr);
      }
    } else {
      g.status := NextStreet(g.status, reply.isBetEnd);
      r := Ok(resp);
    }
  }
}
