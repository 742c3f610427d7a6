/** The requests that come before and between hands: HandleReady in its
    three versions (service/gameservice.go, service/game/gameservice.go and
    game/game.go), and Start and AddPlayer of game/game.go, the versions a
    game room delegates to.  The answers of the store are parameters. */
module Admission {
  import opened GameError
  import opened Cards
  import opened Players
  import opened TurnOrder
  import opened Table
  import opened Winners
  import opened Games
  import opened Ledger

  /** game/game.go: a room holds at most this many players, checked as
      `len(Players) > RoomLimit` before the new one is added. */
  const RoomLimit: nat := 7

  /** ---- HandleReady ---- */

  /** HandleReady on the players `t` with mementos `pm` of a game that is
      `started` or not: the error, the players and the mementos.  The
      service versions test `started` first and keep the flag even when the
      save fails; service/game remembers the player after a good save.
      game/game.go looks the player up first, undoes the player when the
      save fails, and remembers it otherwise. */
  function ReadySpec(v: Version, t: seq<PlayerState>, pm: seq<PlayerState>, started: bool, name: string,
                     isReady: bool, saveOk: bool): (r: (Outcome<()>, seq<PlayerState>, seq<PlayerState>))
    requires |pm| == |t|
    ensures |r.1| == |t| && |r.2| == |t|
  {
    var seat := PlayerIdx(t, name);
    if v != Legacy && started then (Fail(GameAlreadyStarted), t, pm)
    else if seat.Fail? || seat.Panic? then (Fail(NoPlayerExists), t, pm)
    else if started then (Fail(GameAlreadyStarted), t, pm)
    else ReadyAt(v, t, pm, seat.value, isReady, saveOk)
  }

  /** HandleReady once the player in seat `i` is found. */
  function ReadyAt(v: Version, t: seq<PlayerState>, pm: seq<PlayerState>, i: nat, isReady: bool, saveOk: bool)
    : (r: (Outcome<()>, seq<PlayerState>, seq<PlayerState>))
    requires |pm| == |t| && i < |t|
    ensures |r.1| == |t| && |r.2| == |t|
  {
    var t1 := t[i := t[i].(isReady := isReady)];
    if !saveOk then (Fail(StoreError), if v == Legacy then t[i := pm[i]] else t1, pm)
    else (Ok(()), t1, if v == Entity then pm else pm[i := t1[i]])
  }

  /** A request refused for the game having started or for an unknown
      nickname changes no player and no memento; in a started game the
      service versions give GameAlreadyStarted for every nickname, and
      game/game.go gives NoPlayerExists for an unknown one. */
  lemma RefusedReadyChangesNothing(v: Version, t: seq<PlayerState>, pm: seq<PlayerState>, started: bool,
                                   name: string, isReady: bool, saveOk: bool)
    requires |pm| == |t|
    ensures var r := ReadySpec(v, t, pm, started, name, isReady, saveOk);
      && (r.0 == Fail(GameAlreadyStarted) || r.0 == Fail(NoPlayerExists) ==> r.1 == t && r.2 == pm)
      && (started ==> r.0 == if v != Legacy || PlayerIdx(t, name).Ok? then Fail(GameAlreadyStarted)
                             else Fail(NoPlayerExists))
      && (!started && !PlayerIdx(t, name).Ok? ==> r.0 == Fail(NoPlayerExists))
  {
  }

  /** An accepted request sets the ready flag of the first player with the
      nickname and nothing else, and asking twice is asking once. */
  lemma ReadySetsOneFlag(v: Version, t: seq<PlayerState>, pm: seq<PlayerState>, name: string, isReady: bool)
    requires |pm| == |t|
    ensures var r := ReadySpec(v, t, pm, false, name, isReady, true);
      r.0.Ok? <==> PlayerIdx(t, name).Ok?
    ensures var r := ReadySpec(v, t, pm, false, name, isReady, true);
      r.0.Ok? ==> var i := PlayerIdx(t, name).value;
        && i < |t| && t[i].nickname == name
        && r.1 == t[i := t[i].(isReady := isReady)]
        && ReadySpec(v, r.1, r.2, false, name, isReady, true).1 == r.1
  {
    var r := ReadySpec(v, t, pm, false, name, isReady, true);
    if r.0.Ok? {
      var i := PlayerIdx(t, name).value;
      PlayerIdxKeeps(t, name, i, t[i].(isReady := isReady));
    }
  }

  /** A failed save: the service versions keep the new flag, game/game.go
      puts the player back to its memento, which is then the only change. */
  lemma FailedReadySave(v: Version, t: seq<PlayerState>, pm: seq<PlayerState>, name: string, isReady: bool)
    requires |pm| == |t| && PlayerIdx(t, name).Ok?
    ensures var r := ReadySpec(v, t, pm, false, name, isReady, false);
      var i := PlayerIdx(t, name).value;
      && r.0 == Fail(StoreError) && r.2 == pm
      && r.1 == if v == Legacy then t[i := pm[i]] else t[i := t[i].(isReady := isReady)]
  {
  }

  /** `p.IsReady = isReady` on the player `p`, in seat `i`. */
  method MarkReady(g: Game, p: Player, ghost i: nat, isReady: bool)
    requires i < |g.players| && g.players[i] == p && Distinct(g.players)
    modifies p
    ensures g.Roster() == old(g.Roster())[i := old(g.Roster())[i].(isReady := isReady)]
    ensures Mementos(g.players) == old(Mementos(g.players))
  {
    p.isReady := isReady;
  }

  /** `p.Undo()` on the player `p`, in seat `i`. */
  method UndoPlayer(g: Game, p: Player, ghost i: nat)
    requires i < |g.players| && g.players[i] == p && Distinct(g.players)
    modifies p
    ensures g.Roster() == old(g.Roster())[i := old(Mementos(g.players))[i]]
    ensures Mementos(g.players) == old(Mementos(g.players))
  {
    p.Undo();
  }

  /** `p.SetMemento()` on the player `p`, in seat `i`. */
  method RememberPlayer(g: Game, p: Player, ghost i: nat)
    requires i < |g.players| && g.players[i] == p && SeparateMementos(g.players)
    modifies p.memento
    ensures g.Roster() == old(g.Roster())
    ensures Mementos(g.players) == old(Mementos(g.players))[i := g.Roster()[i]]
  {
    p.SetMemento();
    forall j | 0 <= j < |g.players|
      ensures Mementos(g.players)[j] == old(Mementos(g.players))[i := g.Roster()[i]][j]
    {
      if j != i {
        assert g.players[j].memento != p.memento;
      }
    }
  }

  /** HandleReady on the game: it does what ReadySpec says. */
  method HandleReady(g: Game, v: Version, name: string, isReady: bool, saveOk: bool) returns (r: Outcome<()>)
    requires Distinct(g.players) && SeparateMementos(g.players)
    modifies set p | p in g.players, set p | p in g.players :: p.memento
    ensures (r, g.Roster(), Mementos(g.players))
         == ReadySpec(v, old(g.Roster()), old(Mementos(g.players)), g.isStarted, name, isReady, saveOk)
  {
    if v != Legacy && g.isStarted {
      return Fail(GameAlreadyStarted);
    }
    var p := g.FindPlayer(name);
    if p == null {
      return Fail(NoPlayerExists);
    }
    if g.isStarted {
      return Fail(GameAlreadyStarted);
    }
    ghost var i := PlayerIdx(g.Roster(), name).value;
    r := ReadyPlayer(g, v, p, i, isReady, saveOk);
  }

  /** HandleReady on the player `p`, in seat `i`: it does what ReadyAt says. */
  method ReadyPlayer(g: Game, v: Version, p: Player, ghost i: nat, isReady: bool, saveOk: bool) returns (r: Outcome<()>)
    requires i < |g.players| && g.players[i] == p && Distinct(g.players) && SeparateMementos(g.players)
    modifies p, p.memento
    ensures (r, g.Roster(), Mementos(g.players)) == ReadyAt(v, old(g.Roster()), old(Mementos(g.players)), i, isReady, saveOk)
  {
    ghost var t := g.Roster();
    ghost var pm := Mementos(g.players);
    MarkReady(g, p, i, isReady);
    if !saveOk {
      if v == Legacy {
        UndoPlayer(g, p, i);
        assert g.Roster() == t[i := t[i].(isReady := isReady)][i := pm[i]] == t[i := pm[i]];
      }
      return Fail(StoreError);
    }
    if v != Entity {
      RememberPlayer(g, p, i);
    }
    r := Ok(());
  }

  /** ---- Start ---- */

  /** GameStartResponse: the ready players' nicknames and those of the first
      player and the two blinds. */
  datatype StartResponse = StartResponse(readyPlayers: seq<string>, firstPlayer: string, smallBlind: string, bigBlind: string)

  /** The response of a start on the players `t` seated at `s`; a seat off
      the table is Go's index-out-of-range panic. */
  function StartReply(t: seq<PlayerState>, s: Seats): Outcome<StartResponse>
  {
    Reply(ReadyNames(t), t, s)
  }

  /** The response naming the ready players `names`. */
  function Reply(names: seq<string>, t: seq<PlayerState>, s: Seats): Outcome<StartResponse>
  {
    if s.first < |t| && s.sb < |t| && s.bb < |t|
    then Ok(StartResponse(names, t[s.first].nickname, t[s.sb].nickname, t[s.bb].nickname))
    else Panic
  }

  /** Dealing cards changes no nickname, so not the response either. */
  lemma DealtReply(names: seq<string>, t: seq<PlayerState>, d: seq<Card>, k: nat, s: Seats)
    requires k <= |t| && 2 * k <= |d|
    ensures Reply(names, Dealt(t, d, k), s) == Reply(names, t, s)
  {
    var t1 := Dealt(t, d, k);
    if s.first < |t| && s.sb < |t| && s.bb < |t| {
      assert t1[s.first].nickname == t[s.first].nickname;
      assert t1[s.sb].nickname == t[s.sb].nickname;
      assert t1[s.bb].nickname == t[s.bb].nickname;
    }
  }

  /** The deal of game/game.go's Start: the players in the hand are
      counted, the first that many seats take two cards each, and when the
      save fails the players in the hand and the game go back to their
      mementos.  The deck object keeps the cards it lost. */
  method LegacyDeal(g: Game, dealOk: bool) returns (r: Outcome<()>)
    requires Distinct(g.players)
    modifies g, g.deck, set p | p in g.players
    ensures var t := old(g.Roster());
            var k := |ValidIndices(t)|;
            var d := old(g.deck.cards);
      && (2 * k > |d| ==> r == Panic)
      && (2 * k <= |d| ==>
            && old(g.deck).cards == d[..|d| - 2 * k]
            && (dealOk ==> r == Ok(()) && g.Roster() == Dealt(t, d, k) && g.Fields() == old(g.Fields()))
            && (!dealOk ==> && r == Fail(StoreError)
                            && g.Roster() == CopySeats(Dealt(t, d, k), old(Mementos(g.players)), ValidIndices(t))
                            && g.Fields() == old(g.memento.fields)))
    ensures g.players == old(g.players) && g.Fixed() == old(g.Fixed())
    ensures Mementos(g.players) == old(Mementos(g.players))
  {
    ghost var t := g.Roster();
    ghost var pm := Mementos(g.players);
    ghost var d := g.deck.cards;
    ghost var f := g.Fields();
    ghost var m := g.memento.fields;
    var valid := g.SelectSeats(InHand);
    var dealt := g.GiveCardsToPlayers();
    if dealt.Panic? {
      return Panic;
    }
    assert g.Roster() == Dealt(t, d, |valid|) && Mementos(g.players) == pm;
    assert g.Fields() == f && g.memento.fields == m;
    if !dealOk {
      DealRollBack(g, valid);
      return Fail(StoreError);
    }
    r := Ok(());
  }

  /** The rollback of a failed deal: the players in the hand and the game
      go back to their mementos. */
  method DealRollBack(g: Game, valid: seq<nat>)
    requires AtTable(g.Roster(), valid) && Distinct(g.players)
    modifies g, set p | p in g.players
    ensures g.Roster() == CopySeats(old(g.Roster()), old(Mementos(g.players)), valid)
    ensures g.Fields() == old(g.memento.fields)
    ensures g.players == old(g.players) && g.Fixed() == old(g.Fixed())
    ensures Mementos(g.players) == old(Mementos(g.players))
  {
    UndoSeats(g, valid);
    g.Undo();
  }

  /** Start of game/game.go on the players `t` with mementos `pm`, the game
      fields `f` with memento `m` and the deck `d`: the response and the
      players and fields it leaves.  setPlayers' error puts the game back
      to its memento; otherwise the deal and the save go as DealSpec says. */
  function StartSpec(t: seq<PlayerState>, pm: seq<PlayerState>, f: GameFields, m: GameFields, d: seq<Card>,
                     dealOk: bool, saveOk: bool): (r: (Outcome<StartResponse>, seq<PlayerState>, GameFields))
    requires |pm| == |t|
    ensures r.0 == Fail(LackOfPlayers) <==> |t| < 2
    ensures r.0 == Fail(NotEnoughPlayersReady) <==> |t| >= 2 && |ReadyIndices(t)| < 2
    ensures r.0.Fail? && r.0.error != StoreError ==> r.1 == t && r.2 == m
  {
    var a := AssignSeats(t, f.sb, f.bb);
    if a.Panic? then (Panic, t, f)
    else if a.Fail? then (Fail(a.error), t, m)
    else DealSpec(t, pm, Seated(f, a.value), m, d, ReadyNames(t), dealOk, saveOk)
  }

  /** Start once the seats are assigned: the players in the hand take two
      cards each, the deck running out is a panic; a failed deal puts those
      players and the game back to their mementos, a failed save only the
      game; otherwise the game is started and the response names the ready
      players `names` and the seats. */
  function DealSpec(t: seq<PlayerState>, pm: seq<PlayerState>, f: GameFields, m: GameFields, d: seq<Card>,
                    names: seq<string>, dealOk: bool, saveOk: bool): (r: (Outcome<StartResponse>, seq<PlayerState>, GameFields))
    requires |pm| == |t|
    ensures r.0.Fail? ==> r.0.error == StoreError && r.2 == m && |r.1| == |t|
    ensures 2 * |ValidIndices(t)| > |d| ==> r.0.Panic?
    ensures r.0.Ok? ==> dealOk && saveOk && r.2 == f.(isStarted := true)
  {
    var k := |ValidIndices(t)|;
    if 2 * k > |d| then (Panic, t, f)
    else if !dealOk then (Fail(StoreError), CopySeats(Dealt(t, d, k), pm, ValidIndices(t)), m)
    else if !saveOk then (Fail(StoreError), Dealt(t, d, k), m)
    else (Reply(names, t, Seats(f.sb, f.bb, f.first)), Dealt(t, d, k), f.(isStarted := true))
  }

  /** A start succeeds exactly when the seats are assigned, the deck holds
      two cards for every player in the hand, both the deal and the save go
      through and the seats are at the table; the game is then started, the
      players in the hand hold two more cards, the response lists at least
      two ready players and, with more than two players, names ready players
      for the first player and the blinds. */
  lemma StartedGame(t: seq<PlayerState>, pm: seq<PlayerState>, f: GameFields, m: GameFields, d: seq<Card>,
                    dealOk: bool, saveOk: bool)
    requires |pm| == |t|
    ensures var e := StartSpec(t, pm, f, m, d, dealOk, saveOk);
            var a := AssignSeats(t, f.sb, f.bb);
            var k := |ValidIndices(t)|;
      && (e.0.Ok? <==> a.Ok? && 2 * k <= |d| && dealOk && saveOk
                       && a.value.first < |t| && a.value.sb < |t| && a.value.bb < |t|)
      && (e.0.Ok? ==>
            && e.2.isStarted && e.2.deck == f.deck
            && (e.2.sb, e.2.bb, e.2.first) == (a.value.sb, a.value.bb, a.value.first)
            && (forall i | 0 <= i < k :: |e.1[i].hands| == |t[i].hands| + 2)
            && e.0.value.readyPlayers == ReadyNames(t) && |e.0.value.readyPlayers| >= 2
            && (|t| > 2 ==> && (exists i | 0 <= i < |t| :: t[i].isReady && t[i].nickname == e.0.value.firstPlayer)
                            && (exists i | 0 <= i < |t| :: t[i].isReady && t[i].nickname == e.0.value.smallBlind)
                            && (exists i | 0 <= i < |t| :: t[i].isReady && t[i].nickname == e.0.value.bigBlind)))
  {
    var e := StartSpec(t, pm, f, m, d, dealOk, saveOk);
    var a := AssignSeats(t, f.sb, f.bb);
    if e.0.Ok? {
      ReadyNamesCount(t);
      if |t| > 2 {
        AssignedSeatsAreReady(t, f.sb, f.bb);
        assert t[a.value.first].nickname == e.0.value.firstPlayer;
        assert t[a.value.sb].nickname == e.0.value.smallBlind;
        assert t[a.value.bb].nickname == e.0.value.bigBlind;
      }
    }
  }

  /** A failed save after the deal puts the game back to its memento but
      leaves the players holding their cards, and the cards are gone from
      the deck. */
  lemma FailedStartSaveKeepsCards(t: seq<PlayerState>, pm: seq<PlayerState>, f: GameFields, m: GameFields, d: seq<Card>)
    requires |pm| == |t| && AssignSeats(t, f.sb, f.bb).Ok? && 2 * |ValidIndices(t)| <= |d|
    ensures var e := StartSpec(t, pm, f, m, d, true, false);
            var k := |ValidIndices(t)|;
      && e.0 == Fail(StoreError) && e.2 == m
      && forall i | 0 <= i < k :: e.1[i].hands == t[i].hands + [d[|d| - 1 - 2 * i], d[|d| - 2 - 2 * i]]
  {
  }

  /** Start of game/game.go: setPlayers, whose error undoes the game; the
      deal; IsStarted; a save, whose failure undoes the game; and the
      response.  The game's memento is not taken. */
  method Start(g: Game, dealOk: bool, saveOk: bool) returns (r: Outcome<StartResponse>)
    requires Distinct(g.players)
    modifies g, g.deck, set p | p in g.players
    ensures var e := StartSpec(old(g.Roster()), old(Mementos(g.players)), old(g.Fields()), old(g.memento.fields),
                               old(g.deck.cards), dealOk, saveOk);
      r == e.0 && (!r.Panic? ==> g.Roster() == e.1 && g.Fields() == e.2)
    ensures var t := old(g.Roster());
            var k := |ValidIndices(t)|;
            var d := old(g.deck.cards);
      AssignSeats(t, old(g.sb), old(g.bb)).Ok? && 2 * k <= |d| ==> old(g.deck).cards == d[..|d| - 2 * k]
    ensures g.players == old(g.players) && g.Fixed() == old(g.Fixed())
    ensures Mementos(g.players) == old(Mementos(g.players))
  {
    ghost var t := g.Roster();
    ghost var pm := Mementos(g.players);
    var sp := g.SetPlayers();
    if sp.Fail? {
      g.Undo();
      return Fail(sp.error);
    }
    if sp.Panic? {
      return Panic;
    }
    assert g.Roster() == t && Mementos(g.players) == pm;
    r := DealAndSave(g, sp.value, dealOk, saveOk);
  }

  /** Start of game/game.go once the seats are assigned: the deal, IsStarted,
      the save and the response naming the ready players `names`. */
  method DealAndSave(g: Game, names: seq<string>, dealOk: bool, saveOk: bool) returns (r: Outcome<StartResponse>)
    requires Distinct(g.players)
    modifies g, g.deck, set p | p in g.players
    ensures var e := DealSpec(old(g.Roster()), old(Mementos(g.players)), old(g.Fields()), old(g.memento.fields),
                              old(g.deck.cards), names, dealOk, saveOk);
      r == e.0 && (!r.Panic? ==> g.Roster() == e.1 && g.Fields() == e.2)
    ensures var k := |ValidIndices(old(g.Roster()))|;
            var d := old(g.deck.cards);
      2 * k <= |d| ==> old(g.deck).cards == d[..|d| - 2 * k]
    ensures g.players == old(g.players) && g.Fixed() == old(g.Fixed())
    ensures Mementos(g.players) == old(Mementos(g.players))
  {
    ghost var t := g.Roster();
    ghost var d := g.deck.cards;
    ghost var f := g.Fields();
    var dealt := LegacyDeal(g, dealOk);
    if !dealt.Ok? {
      return if dealt.Panic? then Panic else Fail(dealt.error);
    }
    DealtReply(names, t, d, |ValidIndices(t)|, Seats(f.sb, f.bb, f.first));
    r := Announce(g, names, saveOk);
  }

  /** The end of game/game.go's Start: IsStarted, the save, whose failure
      undoes the game, and the response. */
  method Announce(g: Game, names: seq<string>, saveOk: bool) returns (r: Outcome<StartResponse>)
    modifies g
    ensures !saveOk ==> r == Fail(StoreError) && g.Fields() == old(g.memento.fields)
    ensures saveOk ==> && r == Reply(names, g.Roster(), Seats(old(g.sb), old(g.bb), old(g.first)))
                       && g.Fields() == old(g.Fields()).(isStarted := true)
    ensures g.players == old(g.players) && g.Fixed() == old(g.Fixed()) && g.Roster() == old(g.Roster())
  {
    g.isStarted := true;
    if !saveOk {
      g.Undo();
      return Fail(StoreError);
    }
    if g.first >= |g.players| || g.sb >= |g.players| || g.bb >= |g.players| {
      return Panic;
    }
    r := Ok(StartResponse(names, g.players[g.first].nickname, g.players[g.sb].nickname, g.players[g.bb].nickname));
  }

  /** ---- AddPlayer ---- */

  /** A nickname not at the table is found, after it joins, in the new last
      seat. */
  lemma JoinedPlayerFound(t: seq<PlayerState>, s: PlayerState)
    requires !PlayerIdx(t, s.nickname).Ok?
    ensures PlayerIdx(t + [s], s.nickname) == Ok(|t|)
  {
    var t1 := t + [s];
    assert t1[|t|].nickname == s.nickname;
    assert forall k | 0 <= k < |t| :: t1[k].nickname != s.nickname;
    assert PlayerIdx(t1, s.nickname).Ok?;
  }

  /** AddPlayer's duplicate check keeps the nicknames at the table unique. */
  lemma JoinKeepsNamesUnique(t: seq<PlayerState>, s: PlayerState)
    requires UniqueNames(t) && !PlayerIdx(t, s.nickname).Ok?
    ensures UniqueNames(t + [s])
  {
    var t1 := t + [s];
    forall i, j | 0 <= i < j < |t1|
      ensures t1[i].nickname != t1[j].nickname
    {
      if j == |t| {
        assert t1[i] == t[i];
      }
    }
  }

  /** AddPlayer of game/game.go: a nickname already at the table and a
      table of more than RoomLimit players are refused with nothing
      changed; otherwise the player joins at the end, and the game is
      remembered after a good save or undone after a failed one (the new
      player stays either way). */
  method AddPlayer(g: Game, p: Player, saveOk: bool) returns (r: Outcome<()>)
    modifies g, g.memento
    ensures PlayerIdx(old(g.Roster()), p.nickname).Ok? ==>
      r == Fail(PlayerAlreadyExists) && g.players == old(g.players) && g.Fields() == old(g.Fields())
    ensures !PlayerIdx(old(g.Roster()), p.nickname).Ok? && |old(g.players)| > RoomLimit ==>
      r == Fail(PlayerLimitationError) && g.players == old(g.players) && g.Fields() == old(g.Fields())
    ensures !PlayerIdx(old(g.Roster()), p.nickname).Ok? && |old(g.players)| <= RoomLimit ==>
      && g.players == old(g.players) + [p]
      && (saveOk ==> r == Ok(()) && g.Fields() == old(g.Fields()) && g.memento.fields == g.Fields())
      && (!saveOk ==> r == Fail(StoreError) && g.Fields() == old(g.memento.fields))
    ensures g.memento == old(g.memento) && g.hostName == old(g.hostName) && g.minBetAmount == old(g.minBetAmount)
    ensures !saveOk ==> g.memento.fields == old(g.memento.fields)
  {
    var q := g.FindPlayer(p.nickname);
    if q != null {
      return Fail(PlayerAlreadyExists);
    }
    if |g.players| > RoomLimit {
      return Fail(PlayerLimitationError);
    }
    g.players := g.players + [p];
    if !saveOk {
      g.Undo();
      return Fail(StoreError);
    }
    g.SetMemento();
    r := Ok(());
  }
}
