/** What handleBet promises, and where its three versions part, stated on
    HandleBetSpec. */
module BettingFacts {
  import opened GameError
  import opened Uint64
  import opened Players
  import opened TurnOrder
  import opened Bets
  import opened Winners
  import opened Games
  import opened Betting

  /** The checks pass exactly for the player whose turn it is, when that
      player is ready, has not folded and has not left; with unique
      nicknames the bettor's seat is the current seat. */
  lemma AdmitsTurnHolder(t: seq<PlayerState>, current: nat, name: string)
    requires UniqueNames(t)
    ensures Admit(t, current, name).Ok? <==>
              current < |t| && t[current].nickname == name && InHand(t[current])
    ensures Admit(t, current, name).Ok? ==> Admit(t, current, name).value == current
  {
    if current < |t| && t[current].nickname == name {
      var r := PlayerIdx(t, name);
      assert r.Ok? && r.value <= current;
    }
  }

  /** A refused bet changes nothing. */
  lemma RefusedBetChangesNothing(v: Version, s: Snapshot, pm: seq<PlayerState>, gm: GameFields, info: BetInfo, saveOk: bool)
    requires |pm| == |s.t|
    requires !Admit(s.t, s.f.current, info.playerName).Ok?
    ensures HandleBetSpec(v, s, pm, gm, info, saveOk).1 == s
    ensures var a := Admit(s.t, s.f.current, info.playerName);
      HandleBetSpec(v, s, pm, gm, info, saveOk).0 == if a.Panic? then Panic else Fail(a.error)
  {
  }

  /** A fold marks the bettor dead and changes no other field of anyone, nor
      any game field: the current seat stays where it was, and nothing is
      saved.  It succeeds exactly when GetNextPlayerIdx finds a next player
      on the table with the bettor folded, and the reply names that player,
      who is ready and sits elsewhere than the current seat. */
  lemma FoldKeepsTurn(v: Version, s: Snapshot, pm: seq<PlayerState>, gm: GameFields, info: BetInfo, saveOk: bool)
    requires |pm| == |s.t| && info.isDead
    requires Admit(s.t, s.f.current, info.playerName).Ok?
    ensures var i := Admit(s.t, s.f.current, info.playerName).value;
      var (r, s') := HandleBetSpec(v, s, pm, gm, info, saveOk);
      r.Ok? ==> s' == Snapshot(s.t[i := s.t[i].(isDead := true)], s.f) && r.value.isPlayerDead && !r.value.isBetEnd
    ensures var i := Admit(s.t, s.f.current, info.playerName).value;
      var t1 := s.t[i := s.t[i].(isDead := true)];
      var nx := NextPlayerIdx(t1, s.f.current);
      var r := HandleBetSpec(v, s, pm, gm, info, saveOk).0;
      && (r.Ok? <==> nx.Ok?)
      && (r.Ok? ==>
            && nx.value < |t1| && nx.value != s.f.current && t1[nx.value].isReady
            && r.value.next == t1[nx.value].nickname)
    ensures HandleBetSpec(v, s, pm, gm, info, true) == HandleBetSpec(v, s, pm, gm, info, false)
  {
    var i := Admit(s.t, s.f.current, info.playerName).value;
    NextPlayerIdxSound(s.t[i := s.t[i].(isDead := true)], s.f.current);
  }

  /** A stake that is accepted and does not end the round adds the amount
      to the bettor's current and total bets (wrapping), sets the all-in
      flag when the bet uses up the game balance and otherwise keeps it,
      leaves every other seat alone, and hands the turn to the player the
      reply names. */
  lemma StakeAddsAmount(v: Version, s: Snapshot, pm: seq<PlayerState>, gm: GameFields, info: BetInfo, saveOk: bool)
    requires |pm| == |s.t| && !info.isDead
    requires Admit(s.t, s.f.current, info.playerName).Ok?
    ensures var i := Admit(s.t, s.f.current, info.playerName).value;
      var (r, s') := HandleBetSpec(v, s, pm, gm, info, saveOk);
      r.Ok? && !r.value.isBetEnd ==>
        && |s'.t| == |s.t|
        && s'.t[i].currentBet == Add(s.t[i].currentBet, info.betAmount)
        && s'.t[i].totalBet == Add(s.t[i].totalBet, info.betAmount)
        && s'.t[i].gameBalance == s.t[i].gameBalance
        && s'.t[i].isAllIn == (s.t[i].isAllIn || s.t[i].gameBalance == Add(s.t[i].totalBet, info.betAmount))
        && r.value.playerTotalBet == s'.t[i].totalBet
        && (forall k | 0 <= k < |s.t| && k != i :: s'.t[k] == s.t[k])
        && s'.f.current < |s'.t| && r.value.next == s'.t[s'.f.current].nickname
  {
    var i := Admit(s.t, s.f.current, info.playerName).value;
    var p := s.t[i];
    assert HandleBetSpec(v, s, pm, gm, info, saveOk) == StakeSpec(v, s, pm, gm, i, info.betAmount, saveOk);
    var bt := BetTypeOf(v, p, info.betAmount, s.f.currentBet);
    if bt.Ok? {
      var t2 := s.t[i := Staked(p, info.betAmount, bt.value == AllIn)];
      assert t2[i].nickname == info.playerName;
      PlayerIdxKeeps(s.t, info.playerName, i, t2[i]);
      NextPlayerIdxSound(t2, s.f.current);
      var nx := NextPlayerIdx(t2, s.f.current);
      if nx.Ok? {
        AfterStakeMidRound(v, Snapshot(t2, s.f), pm, gm, i, nx.value, info.betAmount, saveOk);
      }
    }
  }

  /** After the stake, a reply that does not end the round keeps the staked
      players, hands the turn to `n` and names that player. */
  lemma AfterStakeMidRound(v: Version, s: Snapshot, pm: seq<PlayerState>, gm: GameFields, i: nat, n: nat, amount: u64, saveOk: bool)
    requires i < |s.t| == |pm| && n < |s.t|
    requires PlayerIdx(s.t, s.t[i].nickname) == Ok(i)
    ensures var (r, s') := AfterStakeSpec(v, s, pm, gm, i, n, amount, saveOk);
      r.Ok? && !r.value.isBetEnd ==>
        s'.t == s.t && s'.f.current == n && r.value.next == s.t[n].nickname
        && r.value.playerTotalBet == s.t[i].totalBet
  {
    if amount <= s.f.currentBet {
      assert AfterStakeSpec(v, s, pm, gm, i, n, amount, saveOk)
          == CallSpec(v, s, pm, gm, i, i, n, s.t[n].nickname, saveOk);
    }
  }

  /** The end of the round itself: the reply says so whenever there is one,
      and there is one unless an entity save fails. */
  lemma RoundEndClears(v: Version, s: Snapshot, pm: seq<PlayerState>, gm: GameFields, i: nat, name: string, saveOk: bool)
    requires i < |s.t| == |pm|
    ensures var (r, s') := RoundEndSpec(v, s, pm, gm, i, name, saveOk);
      && (r.Ok? <==> saveOk || v != Entity)
      && (r.Ok? ==> r.value.isBetEnd)
      && |s'.t| == |s.t|
      && (forall k | 0 <= k < |s.t| && k != i :: s'.t[k] == s.t[k].(currentBet := 0))
      && (saveOk ==> s'.f == s.f.(current := s.f.first) && s'.t[i].currentBet == 0)
      && (!saveOk && v != Entity ==> s'.f == gm && s'.t[i] == pm[i])
  {
  }

  /** The end of a betting round.  A bet ends the round exactly when it is
      accepted, is no raise, GetNextPlayerIdx finds a next player, the first
      ready seat after the bettor's is the bet leader's, and the reply
      survives the save (always, outside the entity version).  Then every
      other seat's current bet is cleared; after a save the first player is
      to act and the bettor's current bet is cleared too, and after a failed
      save the bettor and the game are back at their mementos. */
  lemma RoundEnds(v: Version, s: Snapshot, pm: seq<PlayerState>, gm: GameFields, info: BetInfo, saveOk: bool)
    requires |pm| == |s.t|
    ensures var r := HandleBetSpec(v, s, pm, gm, info, saveOk).0;
      var a := Admit(s.t, s.f.current, info.playerName);
      (r.Ok? && r.value.isBetEnd) <==>
        && a.Ok? && !info.isDead
        && var i := a.value;
        && var b := BetTypeOf(v, s.t[i], info.betAmount, s.f.currentBet);
        && b.Ok?
        && var t2 := s.t[i := Staked(s.t[i], info.betAmount, b.value == AllIn)];
        && NextPlayerIdx(t2, s.f.current).Ok?
        && info.betAmount <= s.f.currentBet
        && i + 1 < |s.t|
        && ReadyPlayerIdx(t2, i + 1) == s.f.betLeader
        && (saveOk || v != Entity)
    ensures var (r, s') := HandleBetSpec(v, s, pm, gm, info, saveOk);
      r.Ok? && r.value.isBetEnd ==>
        && Admit(s.t, s.f.current, info.playerName).Ok?
        && var i := Admit(s.t, s.f.current, info.playerName).value;
        && |s'.t| == |s.t|
        && (forall k | 0 <= k < |s.t| && k != i :: s'.t[k] == s.t[k].(currentBet := 0))
        && (saveOk ==> s'.f == s.f.(current := s.f.first) && s'.t[i].currentBet == 0)
        && (!saveOk ==> s'.f == gm && s'.t[i] == pm[i])
  {
    var a := Admit(s.t, s.f.current, info.playerName);
    if a.Ok? && !info.isDead {
      var i := a.value;
      var p := s.t[i];
      assert HandleBetSpec(v, s, pm, gm, info, saveOk) == StakeSpec(v, s, pm, gm, i, info.betAmount, saveOk);
      var bt := BetTypeOf(v, p, info.betAmount, s.f.currentBet);
      if bt.Ok? {
        var t2 := s.t[i := Staked(p, info.betAmount, bt.value == AllIn)];
        assert t2[i].nickname == info.playerName;
        PlayerIdxKeeps(s.t, info.playerName, i, t2[i]);
        NextPlayerIdxSound(t2, s.f.current);
        var nx := NextPlayerIdx(t2, s.f.current);
        if nx.Ok? {
          AfterStakeRoundEnd(v, Snapshot(t2, s.f), pm, gm, i, nx.value, info.betAmount, saveOk);
        }
      }
    }
  }

  /** RoundEnds after the stake, with `n` the next player. */
  lemma AfterStakeRoundEnd(v: Version, s: Snapshot, pm: seq<PlayerState>, gm: GameFields, i: nat, n: nat, amount: u64, saveOk: bool)
    requires i < |s.t| == |pm| && n < |s.t|
    requires PlayerIdx(s.t, s.t[i].nickname) == Ok(i)
    ensures var r := AfterStakeSpec(v, s, pm, gm, i, n, amount, saveOk).0;
      (r.Ok? && r.value.isBetEnd) <==>
        && amount <= s.f.currentBet
        && i + 1 < |s.t|
        && ReadyPlayerIdx(s.t, i + 1) == s.f.betLeader
        && (saveOk || v != Entity)
    ensures var (r, s') := AfterStakeSpec(v, s, pm, gm, i, n, amount, saveOk);
      r.Ok? && r.value.isBetEnd ==>
        && |s'.t| == |s.t|
        && (forall k | 0 <= k < |s.t| && k != i :: s'.t[k] == s.t[k].(currentBet := 0))
        && (saveOk ==> s'.f == s.f.(current := s.f.first) && s'.t[i].currentBet == 0)
        && (!saveOk ==> s'.f == gm && s'.t[i] == pm[i])
  {
    var name := s.t[n].nickname;
    if amount <= s.f.currentBet {
      assert AfterStakeSpec(v, s, pm, gm, i, n, amount, saveOk) == CallSpec(v, s, pm, gm, i, i, n, name, saveOk);
      if i + 1 >= |s.t| {
      } else if ReadyPlayerIdx(s.t, i + 1) == s.f.betLeader {
        assert CallSpec(v, s, pm, gm, i, i, n, name, saveOk) == RoundEndSpec(v, s, pm, gm, i, name, saveOk);
        RoundEndClears(v, s, pm, gm, i, name, saveOk);
      } else {
        assert CallSpec(v, s, pm, gm, i, i, n, name, saveOk) == AdvanceSpec(v, s, pm, gm, i, n, name, saveOk);
      }
    }
  }

  /** The game's total bet after a step is `total` or the memento's, and a
      reply reports it. */
  predicate TotalKept(o: (Outcome<BetReply>, Snapshot), total: u64, gm: GameFields)
  {
    && (o.1.f.totalBet == total || o.1.f.totalBet == gm.totalBet)
    && (o.0.Ok? ==> o.0.value.gameTotalBet == o.1.f.totalBet)
  }

  lemma AfterStakeKeepsTotal(v: Version, s: Snapshot, pm: seq<PlayerState>, gm: GameFields, i: nat, n: nat, amount: u64, saveOk: bool)
    requires i < |s.t| == |pm| && n < |s.t|
    ensures TotalKept(AfterStakeSpec(v, s, pm, gm, i, n, amount, saveOk), s.f.totalBet, gm)
  {
    var c := PlayerIdx(s.t, s.t[i].nickname);
    if c.Ok? && amount <= s.f.currentBet {
      var name := s.t[n].nickname;
      assert CallSpec(v, s, pm, gm, i, c.value, n, name, saveOk).1.f.totalBet in {s.f.totalBet, gm.totalBet};
    }
  }

  /** The game's total bet is never raised by a bet: it ends as it was or,
      after a rollback, as the game's memento holds it, and the reply
      reports one of the two. */
  lemma GameTotalBetNeverGrows(v: Version, s: Snapshot, pm: seq<PlayerState>, gm: GameFields, info: BetInfo, saveOk: bool)
    requires |pm| == |s.t|
    ensures TotalKept(HandleBetSpec(v, s, pm, gm, info, saveOk), s.f.totalBet, gm)
  {
    var a := Admit(s.t, s.f.current, info.playerName);
    if a.Ok? && !info.isDead {
      var i := a.value;
      var p := s.t[i];
      var bt := BetTypeOf(v, p, info.betAmount, s.f.currentBet);
      if bt.Ok? {
        var t2 := s.t[i := Staked(p, info.betAmount, bt.value == AllIn)];
        NextPlayerIdxSound(t2, s.f.current);
        var nx := NextPlayerIdx(t2, s.f.current);
        if nx.Ok? {
          AfterStakeKeepsTotal(v, Snapshot(t2, s.f), pm, gm, i, nx.value, info.betAmount, saveOk);
        }
      }
    }
  }

  /** A raise is never saved: the store's answer changes nothing. */
  lemma RaiseUnsaved(v: Version, s: Snapshot, pm: seq<PlayerState>, gm: GameFields, info: BetInfo)
    requires |pm| == |s.t| && !info.isDead && info.betAmount > s.f.currentBet
    ensures HandleBetSpec(v, s, pm, gm, info, true) == HandleBetSpec(v, s, pm, gm, info, false)
  {
  }

  /** A raise that is accepted makes the bettor the bet leader and sets the
      table's current bet to the bettor's, and the turn passes to the next
      player, who is ready and sits elsewhere. */
  lemma RaiseLeads(v: Version, s: Snapshot, pm: seq<PlayerState>, gm: GameFields, info: BetInfo, saveOk: bool)
    requires |pm| == |s.t| && !info.isDead && info.betAmount > s.f.currentBet
    requires UniqueNames(s.t)
    ensures var (r, s') := HandleBetSpec(v, s, pm, gm, info, saveOk);
      r.Ok? ==>
        && s'.f.betLeader == s.f.current
        && s'.f.currentBet == s'.t[s.f.current].currentBet
        && s'.f.current < |s'.t| && s'.f.current != s.f.current && s'.t[s'.f.current].isReady
        && r.value.next == s'.t[s'.f.current].nickname
  {
    AdmitsTurnHolder(s.t, s.f.current, info.playerName);
    if Admit(s.t, s.f.current, info.playerName).Ok? {
      var i := s.f.current;
      var p := s.t[i];
      match BetTypeOf(v, p, info.betAmount, s.f.currentBet)
      case Ok(b) =>
        var t2 := s.t[i := Staked(p, info.betAmount, b == AllIn)];
        NextPlayerIdxSound(t2, s.f.current);
        assert UniqueNames(t2);
        AdmitsTurnHolder(t2, i, p.nickname);
        assert PlayerIdx(t2, p.nickname) == Ok(i);
      case _ =>
    }
  }

  /** A failed save, in the entity version: the players and the game are
      left exactly as a successful save would leave them, and only the
      reply turns into StoreError. */
  lemma EntityKeepsUnsavedState(s: Snapshot, pm: seq<PlayerState>, gm: GameFields, info: BetInfo)
    requires |pm| == |s.t|
    ensures var (r1, s1) := HandleBetSpec(Entity, s, pm, gm, info, true);
      var (r0, s0) := HandleBetSpec(Entity, s, pm, gm, info, false);
      s0 == s1 && (r0 == r1 || r0 == Fail(StoreError))
  {
  }

  /** A failed save, in the service and legacy versions: the bettor goes back
      to their memento and the game to its memento; at the end of a round
      the reply still says the round ended, and otherwise it is StoreError. */
  lemma FailedSaveRollsBack(v: Version, s: Snapshot, pm: seq<PlayerState>, gm: GameFields, info: BetInfo)
    requires |pm| == |s.t| && v != Entity
    ensures var (r1, s1) := HandleBetSpec(v, s, pm, gm, info, true);
      var (r0, s0) := HandleBetSpec(v, s, pm, gm, info, false);
      (r0, s0) != (r1, s1) ==>
        && Admit(s.t, s.f.current, info.playerName).Ok?
        && var i := Admit(s.t, s.f.current, info.playerName).value;
        && |s1.t| == |s.t|
        && s0 == Snapshot(s1.t[i := pm[i]], gm)
        && (if r1.Ok? && r1.value.isBetEnd then r0.Ok? && r0.value.isBetEnd else r0 == Fail(StoreError))
  {
  }

  /** The walk to the next player never wraps from the last seat, so once
      the turn reaches it any fold, and any bet whose type is accepted,
      panics. */
  lemma LastSeatBetPanics(v: Version, s: Snapshot, pm: seq<PlayerState>, gm: GameFields, info: BetInfo, saveOk: bool)
    requires |pm| == |s.t| && s.f.current + 1 == |s.t|
    requires Admit(s.t, s.f.current, info.playerName).Ok?
    requires info.isDead || BetTypeOf(v, s.t[Admit(s.t, s.f.current, info.playerName).value], info.betAmount, s.f.currentBet).Ok?
    ensures HandleBetSpec(v, s, pm, gm, info, saveOk).0 == Panic
  {
    var i := Admit(s.t, s.f.current, info.playerName).value;
    if info.isDead {
      LastSeatPanics(s.t[i := s.t[i].(isDead := true)], s.f.current);
    } else {
      var p := s.t[i];
      var b := BetTypeOf(v, p, info.betAmount, s.f.currentBet).value;
      LastSeatPanics(s.t[i := Staked(p, info.betAmount, b == AllIn)], s.f.current);
    }
  }
}
