/** handleBet, the turn of one player in a betting round, in its three
    versions: service/gameservice.go (over domain/entity), service/game/
    gameservice.go and game/game.go.  HandleBetSpec says what a call does to
    the players and the game fields, and the method HandleBet, which changes
    the game in place, is proved to do exactly that. */
module Betting {
  import opened GameError
  import opened Uint64
  import opened Players
  import opened TurnOrder
  import opened Table
  import opened Bets
  import opened Winners
  import opened Games

  /** BetInfo: who bets, how much, and whether the player folds instead. */
  datatype BetInfo = BetInfo(playerName: string, betAmount: u64, isDead: bool)

  /** The seven results of handleBet besides its error. */
  datatype BetReply = BetReply(
    next: string,
    isPlayerDead: bool,
    playerCurrentBet: u64,
    playerTotalBet: u64,
    gameCurrentBet: u64,
    gameTotalBet: u64,
    isBetEnd: bool)

  /** The players' states and the game's thirteen memento fields. */
  datatype Snapshot = Snapshot(t: seq<PlayerState>, f: GameFields)

  function Snap(g: Game): Snapshot
    reads g, set p | p in g.players
  {
    Snapshot(g.Roster(), g.Fields())
  }

  function Reply(next: string, p: PlayerState, f: GameFields, dead: bool, isBetEnd: bool): BetReply
  {
    BetReply(next, dead, p.currentBet, p.totalBet, f.currentBet, f.totalBet, isBetEnd)
  }

  /** The checks before anything changes, in the order the code makes them:
      the nickname must be at the table, the current seat must exist (Go
      panics otherwise) and hold that nickname, and the player must be
      ready, not folded and not gone.  The result is the bettor's seat. */
  function Admit(t: seq<PlayerState>, current: nat, name: string): (r: Outcome<nat>)
    ensures r.Ok? ==> r.value < |t| && t[r.value].nickname == name
  {
    match PlayerIdx(t, name)
    case Ok(i) =>
      if current >= |t| then Panic
      else if t[current].nickname != name then Fail(InvalidPlayerTurn)
      else if !t[i].isReady then Fail(PlayerNotReady)
      else if t[i].isDead then Fail(DeadPlayer)
      else if t[i].isLeft then Fail(PlayerLeft)
      else Ok(i)
    case _ => Fail(NoPlayerExists)
  }

  /** The bettor's state after staking `amount`: the all-in flag is set by an
      all-in bet and otherwise kept, and both bets grow by the amount,
      wrapping modulo 2^64. */
  function Staked(p: PlayerState, amount: u64, allIn: bool): (r: PlayerState)
    ensures r.isAllIn <==> p.isAllIn || allIn
    ensures r.(isAllIn := p.isAllIn, currentBet := p.currentBet, totalBet := p.totalBet) == p
    ensures (r.currentBet - p.currentBet - amount) % Modulus == 0
    ensures (r.totalBet - p.totalBet - amount) % Modulus == 0
  {
    p.(isAllIn := p.isAllIn || allIn,
       currentBet := Add(p.currentBet, amount),
       totalBet := Add(p.totalBet, amount))
  }

  /** Seat `i` back to its memento: the Undo of the service and legacy
      versions; the entity version has no rollback and keeps `t`. */
  function Rollback(v: Version, t: seq<PlayerState>, pm: seq<PlayerState>, i: nat): (r: seq<PlayerState>)
    requires i < |t| == |pm|
    ensures |r| == |t| && forall k | 0 <= k < |t| && k != i :: r[k] == t[k]
    ensures r[i] == if v == Entity then t[i] else pm[i]
  {
    if v == Entity then t else t[i := pm[i]]
  }

  /** The bet's type: game/game.go checks it with isValidBet, which rejects
      a bet over the balance or under the table's current bet; the other
      versions only classify it with getBetType. */
  function BetTypeOf(v: Version, p: PlayerState, amount: u64, tableBet: u64): (r: Outcome<BetType>)
    ensures r.Ok? ==> r.value == GetBetType(p, amount, tableBet)
    ensures v != Legacy ==> r.Ok?
    ensures !r.Panic?
  {
    ValidBetAgrees(p, amount, tableBet);
    if v == Legacy then IsValidBet(p, amount, tableBet) else Ok(GetBetType(p, amount, tableBet))
  }

  /** A fold: the player is marked dead and the next player is looked up;
      the current seat does not move and nothing is saved. */
  function FoldSpec(v: Version, s: Snapshot, pm: seq<PlayerState>, i: nat): (r: (Outcome<BetReply>, Snapshot))
    requires i < |s.t| == |pm|
    ensures |r.1.t| == |s.t| && r.1.f == s.f
  {
    var t1 := s.t[i := s.t[i].(isDead := true)];
    NextPlayerIdxSound(t1, s.f.current);
    match NextPlayerIdx(t1, s.f.current)
    case Ok(n) => (Ok(Reply(t1[n].nickname, t1[i], s.f, true, false)), Snapshot(t1, s.f))
    case Fail(e) => (Fail(e), Snapshot(Rollback(v, t1, pm, i), s.f))
    case Panic => (Panic, Snapshot(t1, s.f))
  }

  /** A bet: its type (checked first, in game/game.go, by isValidBet, whose
      errors change nothing), the stake, and the next player. */
  function StakeSpec(v: Version, s: Snapshot, pm: seq<PlayerState>, gm: GameFields, i: nat, amount: u64, saveOk: bool)
    : (r: (Outcome<BetReply>, Snapshot))
    requires i < |s.t| == |pm|
    ensures |r.1.t| == |s.t| && (r.1.f.deck == s.f.deck || r.1.f == gm)
  {
    var p := s.t[i];
    match BetTypeOf(v, p, amount, s.f.currentBet)
    case Ok(b) =>
      NextSpec(v, Snapshot(s.t[i := Staked(p, amount, b == AllIn)], s.f), pm, gm, i, amount, saveOk)
    case Fail(e) => (Fail(e), s)
    case Panic => (Panic, s)
  }

  /** After the stake: the next player is looked up; when there is none,
      the bettor is undone outside the entity version. */
  function NextSpec(v: Version, s: Snapshot, pm: seq<PlayerState>, gm: GameFields, i: nat, amount: u64, saveOk: bool)
    : (r: (Outcome<BetReply>, Snapshot))
    requires i < |s.t| == |pm|
    ensures |r.1.t| == |s.t| && (r.1.f.deck == s.f.deck || r.1.f == gm)
  {
    NextPlayerIdxSound(s.t, s.f.current);
    match NextPlayerIdx(s.t, s.f.current)
    case Ok(n) => AfterStakeSpec(v, s, pm, gm, i, n, amount, saveOk)
    case Fail(e) => (Fail(e), Snapshot(Rollback(v, s.t, pm, i), s.f))
    case Panic => (Panic, s)
  }

  /** After the stake, with `n` the next player: the bettor's seat is looked
      up again by nickname; a bet above the table's current bet makes the
      bettor the bet leader and passes the turn, without saving; otherwise
      the round ends when the first ready seat after the bettor is the bet
      leader's, and else the turn passes and the game is saved. */
  function AfterStakeSpec(v: Version, s: Snapshot, pm: seq<PlayerState>, gm: GameFields, i: nat, n: nat, amount: u64, saveOk: bool)
    : (r: (Outcome<BetReply>, Snapshot))
    requires i < |s.t| == |pm| && n < |s.t|
    ensures |r.1.t| == |s.t| && (r.1.f.deck == s.f.deck || r.1.f == gm)
  {
    var name := s.t[n].nickname;
    match PlayerIdx(s.t, s.t[i].nickname)
    case Ok(c) =>
      if amount > s.f.currentBet then
        var f := s.f.(currentBet := s.t[i].currentBet, betLeader := c, current := n);
        (Ok(Reply(name, s.t[i], f, false, false)), Snapshot(s.t, f))
      else CallSpec(v, s, pm, gm, i, c, n, name, saveOk)
    // Go undoes the bettor here, but the lookup cannot fail: seat i holds the nickname
    case _ => (Fail(NoPlayerExists), s)
  }

  /** A bet that does not raise, from seat `c`: the round ends when the first
      ready seat after `c` is the bet leader's (Go panics when `c` is the
      last seat), and otherwise the turn passes to `n`. */
  function CallSpec(v: Version, s: Snapshot, pm: seq<PlayerState>, gm: GameFields, i: nat, c: nat, n: nat, name: string, saveOk: bool)
    : (r: (Outcome<BetReply>, Snapshot))
    requires i < |s.t| == |pm|
    ensures |r.1.t| == |s.t| && (r.1.f.deck == s.f.deck || r.1.f == gm)
  {
    if c + 1 >= |s.t| then (Panic, s)
    else if ReadyPlayerIdx(s.t, c + 1) == s.f.betLeader then RoundEndSpec(v, s, pm, gm, i, name, saveOk)
    else AdvanceSpec(v, s, pm, gm, i, n, name, saveOk)
  }

  /** The end of the betting round: the first player's turn again, every
      current bet cleared, and a save.  A failed save is an error in the
      entity version; the others undo the bettor and the game and still
      report the end of the round. */
  function RoundEndSpec(v: Version, s: Snapshot, pm: seq<PlayerState>, gm: GameFields, i: nat, name: string, saveOk: bool)
    : (r: (Outcome<BetReply>, Snapshot))
    requires i < |s.t| == |pm|
    ensures |r.1.t| == |s.t| && (r.1.f.deck == s.f.deck || r.1.f == gm)
  {
    var t3 := MapStates(ClearedBet, s.t);
    var f1 := s.f.(current := s.f.first);
    if saveOk then (Ok(Reply(name, t3[i], f1, false, true)), Snapshot(t3, f1))
    else if v == Entity then (Fail(StoreError), Snapshot(t3, f1))
    else
      var t4 := t3[i := pm[i]];
      (Ok(Reply(name, t4[i], gm, false, true)), Snapshot(t4, gm))
  }

  /** The turn passes to `n` and the game is saved; a failed save is an
      error, after undoing the bettor and the game outside the entity
      version. */
  function AdvanceSpec(v: Version, s: Snapshot, pm: seq<PlayerState>, gm: GameFields, i: nat, n: nat, name: string, saveOk: bool)
    : (r: (Outcome<BetReply>, Snapshot))
    requires i < |s.t| == |pm|
    ensures |r.1.t| == |s.t| && (r.1.f.deck == s.f.deck || r.1.f == gm)
  {
    var f1 := s.f.(current := n);
    if saveOk then (Ok(Reply(name, s.t[i], f1, false, false)), Snapshot(s.t, f1))
    else if v == Entity then (Fail(StoreError), Snapshot(s.t, f1))
    else (Fail(StoreError), Snapshot(s.t[i := pm[i]], gm))
  }

  /** handleBet on the players `s.t` and the fields `s.f`, with the players'
      mementos `pm` and the game's memento `gm`: the reply or the error, and
      the new players and fields. */
  function HandleBetSpec(v: Version, s: Snapshot, pm: seq<PlayerState>, gm: GameFields, info: BetInfo, saveOk: bool)
    : (r: (Outcome<BetReply>, Snapshot))
    requires |pm| == |s.t|
    ensures |r.1.t| == |s.t| && (r.1.f.deck == s.f.deck || r.1.f == gm)
  {
    match Admit(s.t, s.f.current, info.playerName)
    case Ok(i) =>
      if info.isDead then FoldSpec(v, s, pm, i)
      else StakeSpec(v, s, pm, gm, i, info.betAmount, saveOk)
    case Fail(e) => (Fail(e), s)
    case Panic => (Panic, s)
  }

  /** ---- handleBet on the game ---- */

  /** getPlayerIdx: the first seat with the nickname. */
  method SeatOf(g: Game, name: string) returns (r: Outcome<nat>)
    ensures r == PlayerIdx(g.Roster(), name)
  {
    ghost var t := g.Roster();
    var i := 0;
    while i < |g.players|
      invariant 0 <= i <= |g.players|
      invariant PlayerIdxFrom(t, name, i) == PlayerIdx(t, name)
    {
      if g.players[i].nickname == name {
        return Ok(i);
      }
      i := i + 1;
    }
    r := Fail(NoPlayerExists);
  }

  /** handleBet: it does what HandleBetSpec says, touches no memento, and
      keeps the list of players. */
  method HandleBet(g: Game, v: Version, info: BetInfo, saveOk: bool) returns (r: Outcome<BetReply>)
    requires Distinct(g.players)
    modifies g, set p | p in g.players
    ensures (r, Snap(g)) == HandleBetSpec(v, old(Snap(g)), old(Mementos(g.players)), old(g.memento.fields), info, saveOk)
    ensures g.players == old(g.players) && g.Fixed() == old(g.Fixed())
    ensures Mementos(g.players) == old(Mementos(g.players))
  {
    var p, a, i := AdmitBettor(g, info.playerName);
    if a.Fail? {
      return Fail(a.error);
    }
    if a.Panic? {
      return Panic;
    }
    var bettor: Player := p;
    if info.isDead {
      r := FoldBet(g, v, bettor, i);
    } else {
      r := StakeBet(g, v, bettor, i, info.betAmount, saveOk);
    }
  }

  /** The checks that open handleBet: the bettor `p`, at seat `i`, when
      they pass. */
  method AdmitBettor(g: Game, name: string) returns (p: Player?, r: Outcome<()>, ghost i: nat)
    ensures var a := Admit(g.Roster(), g.current, name);
      && (a.Fail? ==> r == Fail(a.error))
      && (a.Panic? ==> r == Panic)
      && (a.Ok? ==> r == Ok(()) && i == a.value && i < |g.players| && g.players[i] == p)
  {
    p := g.FindPlayer(name);
    if p == null {
      return p, Fail(NoPlayerExists), 0;
    }
    i := PlayerIdx(g.Roster(), name).value;
    if g.current >= |g.players| {
      return p, Panic, i;
    }
    var expected := g.players[g.current];
    if p.nickname != expected.nickname {
      return p, Fail(InvalidPlayerTurn), i;
    }
    if !p.isReady {
      return p, Fail(PlayerNotReady), i;
    }
    if p.isDead {
      return p, Fail(DeadPlayer), i;
    }
    if p.isLeft {
      return p, Fail(PlayerLeft), i;
    }
    r := Ok(());
  }

  /** The fold branch of handleBet. */
  method FoldBet(g: Game, v: Version, p: Player, ghost i: nat) returns (r: Outcome<BetReply>)
    requires i < |g.players| && g.players[i] == p && Distinct(g.players)
    modifies p
    ensures (r, Snap(g)) == FoldSpec(v, old(Snap(g)), old(Mementos(g.players)), i)
    ensures Mementos(g.players) == old(Mementos(g.players))
  {
    MarkDead(g, p, i);
    NextPlayerIdxSound(g.Roster(), g.current);
    var n := g.GetNextPlayerIdx();
    match n {
      case Ok(k) =>
        r := Ok(BetReply(g.players[k].nickname, true, p.currentBet, p.totalBet, g.currentBet, g.totalBet, false));
      case Fail(e) =>
        if v != Entity {
          UndoBettor(g, p, i);
        }
        r := Fail(e);
      case Panic =>
        r := Panic;
    }
  }

  /** The bet branch of handleBet, up to the next player. */
  method StakeBet(g: Game, v: Version, p: Player, ghost i: nat, amount: u64, saveOk: bool) returns (r: Outcome<BetReply>)
    requires i < |g.players| && g.players[i] == p && Distinct(g.players)
    modifies g, set q | q in g.players
    ensures (r, Snap(g)) == StakeSpec(v, old(Snap(g)), old(Mementos(g.players)), old(g.memento.fields), i, amount, saveOk)
    ensures g.players == old(g.players) && g.Fixed() == old(g.Fixed())
    ensures Mementos(g.players) == old(Mementos(g.players))
  {
    ghost var s0 := Snap(g);
    ghost var pm := Mementos(g.players);
    ghost var gm := g.memento.fields;
    var bt := BetTypeOf(v, p.State(), amount, g.currentBet);
    if bt.Fail? {
      return Fail(bt.error);
    }
    if bt.Panic? {
      return Panic;
    }
    Stake(g, p, i, amount, bt.value == AllIn);
    assert Snap(g) == Snapshot(s0.t[i := Staked(s0.t[i], amount, bt.value == AllIn)], s0.f);
    r := NextBet(g, v, p, i, amount, saveOk);
  }

  /** The bet branch of handleBet after the stake. */
  method NextBet(g: Game, v: Version, p: Player, ghost i: nat, amount: u64, saveOk: bool) returns (r: Outcome<BetReply>)
    requires i < |g.players| && g.players[i] == p && Distinct(g.players)
    modifies g, set q | q in g.players
    ensures (r, Snap(g)) == NextSpec(v, old(Snap(g)), old(Mementos(g.players)), old(g.memento.fields), i, amount, saveOk)
    ensures g.players == old(g.players) && g.Fixed() == old(g.Fixed())
    ensures Mementos(g.players) == old(Mementos(g.players))
  {
    NextPlayerIdxSound(g.Roster(), g.current);
    var n := g.GetNextPlayerIdx();
    match n {
      case Ok(k) =>
        r := AfterStake(g, v, p, i, k, amount, saveOk);
      case Fail(e) =>
        if v != Entity {
          UndoBettor(g, p, i);
        }
        r := Fail(e);
      case Panic =>
        r := Panic;
    }
  }

  /** handleBet after the stake, with `n` the next player. */
  method AfterStake(g: Game, v: Version, p: Player, ghost i: nat, n: nat, amount: u64, saveOk: bool) returns (r: Outcome<BetReply>)
    requires i < |g.players| && n < |g.players| && g.players[i] == p && Distinct(g.players)
    modifies g, set q | q in g.players
    ensures (r, Snap(g)) == AfterStakeSpec(v, old(Snap(g)), old(Mementos(g.players)), old(g.memento.fields), i, n, amount, saveOk)
    ensures g.players == old(g.players) && g.Fixed() == old(g.Fixed())
    ensures Mementos(g.players) == old(Mementos(g.players))
  {
    ghost var s0 := Snap(g);
    ghost var pm := Mementos(g.players);
    ghost var gm := g.memento.fields;
    var name := g.players[n].nickname;
    var c := SeatOf(g, p.nickname);
    match c {
      case Ok(seat) =>
        if amount > g.currentBet {
          r := Raise(g, p, i, seat, n, name);
        } else {
          assert AfterStakeSpec(v, s0, pm, gm, i, n, amount, saveOk) == CallSpec(v, s0, pm, gm, i, seat, n, name, saveOk);
          r := Call(g, v, p, i, seat, n, name, saveOk);
        }
      case _ =>
        // the bettor sits at seat i, so the lookup by nickname succeeds
        assert false;
    }
  }

  /** A raise: the table's current bet becomes the bettor's, the bettor
      leads the betting, and the turn passes to `n`, unsaved. */
  method Raise(g: Game, p: Player, ghost i: nat, seat: nat, n: nat, name: string) returns (r: Outcome<BetReply>)
    requires i < |g.players| && g.players[i] == p
    modifies g
    ensures Snap(g) == Snapshot(old(g.Roster()), old(g.Fields()).(currentBet := old(g.Roster())[i].currentBet,
                                                                 betLeader := seat, current := n))
    ensures r == Ok(Reply(name, g.Roster()[i], g.Fields(), false, false))
    ensures g.players == old(g.players) && g.Fixed() == old(g.Fixed())
  {
    g.currentBet, g.betLeader, g.current := p.currentBet, seat, n;
    r := Ok(BetReply(name, false, p.currentBet, p.totalBet, g.currentBet, g.totalBet, false));
  }

  /** A bet that does not raise, from seat `seat`. */
  method Call(g: Game, v: Version, p: Player, ghost i: nat, seat: nat, n: nat, name: string, saveOk: bool) returns (r: Outcome<BetReply>)
    requires i < |g.players| && g.players[i] == p && Distinct(g.players)
    modifies g, set q | q in g.players
    ensures (r, Snap(g)) == CallSpec(v, old(Snap(g)), old(Mementos(g.players)), old(g.memento.fields), i, seat, n, name, saveOk)
    ensures g.players == old(g.players) && g.Fixed() == old(g.Fixed())
    ensures Mementos(g.players) == old(Mementos(g.players))
  {
    if seat + 1 >= |g.players| {
      return Panic;
    }
    if ReadyPlayerIdx(g.Roster(), seat + 1) == g.betLeader {
      r := RoundEnd(g, v, p, i, name, saveOk);
    } else {
      r := Advance(g, v, p, i, n, name, saveOk);
    }
  }

  /** The end of a betting round. */
  method RoundEnd(g: Game, v: Version, p: Player, ghost i: nat, name: string, saveOk: bool) returns (r: Outcome<BetReply>)
    requires i < |g.players| && g.players[i] == p && Distinct(g.players)
    modifies g, set q | q in g.players
    ensures (r, Snap(g)) == RoundEndSpec(v, old(Snap(g)), old(Mementos(g.players)), old(g.memento.fields), i, name, saveOk)
    ensures g.players == old(g.players) && g.Fixed() == old(g.Fixed())
    ensures Mementos(g.players) == old(Mementos(g.players))
  {
    ghost var s0 := Snap(g);
    ghost var pm := Mementos(g.players);
    ghost var gm := g.memento.fields;
    g.current := g.first;
    g.ClearPlayersCurrentBet();
    ghost var t3 := MapStates(ClearedBet, s0.t);
    assert Snap(g) == Snapshot(t3, s0.f.(current := s0.f.first));
    if !saveOk {
      if v == Entity {
        return Fail(StoreError);
      }
      RollBack(g, p, i);
    }
    r := Ok(BetReply(name, false, p.currentBet, p.totalBet, g.currentBet, g.totalBet, true));
  }

  /** The turn passes to `n`. */
  method Advance(g: Game, v: Version, p: Player, ghost i: nat, n: nat, name: string, saveOk: bool) returns (r: Outcome<BetReply>)
    requires i < |g.players| && g.players[i] == p && Distinct(g.players)
    modifies g, p
    ensures (r, Snap(g)) == AdvanceSpec(v, old(Snap(g)), old(Mementos(g.players)), old(g.memento.fields), i, n, name, saveOk)
    ensures g.players == old(g.players) && g.Fixed() == old(g.Fixed())
    ensures Mementos(g.players) == old(Mementos(g.players))
  {
    g.current := n;
    if !saveOk {
      if v != Entity {
        RollBack(g, p, i);
      }
      return Fail(StoreError);
    }
    r := Ok(BetReply(name, false, p.currentBet, p.totalBet, g.currentBet, g.totalBet, false));
  }

  /** ---- The bettor's own changes ---- */

  /** `p.IsDead = true`. */
  method MarkDead(g: Game, p: Player, ghost i: nat)
    requires i < |g.players| && g.players[i] == p && Distinct(g.players)
    modifies p
    ensures g.Roster() == old(g.Roster())[i := old(g.Roster())[i].(isDead := true)]
    ensures Mementos(g.players) == old(Mementos(g.players))
  {
    p.isDead := true;
  }

  /** The all-in flag, then `CurrentBet += amount; TotalBet += amount`. */
  method Stake(g: Game, p: Player, ghost i: nat, amount: u64, allIn: bool)
    requires i < |g.players| && g.players[i] == p && Distinct(g.players)
    modifies p
    ensures g.Roster() == old(g.Roster())[i := Staked(old(g.Roster())[i], amount, allIn)]
    ensures Mementos(g.players) == old(Mementos(g.players))
  {
    if allIn {
      p.isAllIn := true;
    }
    p.currentBet := Add(p.currentBet, amount);
    p.totalBet := Add(p.totalBet, amount);
  }

  /** `p.Undo()`. */
  method UndoBettor(g: Game, p: Player, ghost i: nat)
    requires i < |g.players| && g.players[i] == p && Distinct(g.players)
    modifies p
    ensures g.Roster() == old(g.Roster())[i := old(Mementos(g.players))[i]]
    ensures Mementos(g.players) == old(Mementos(g.players))
  {
    p.Undo();
  }

  /** The rollback after a failed save: the bettor and the game go back to
      their mementos. */
  method RollBack(g: Game, p: Player, ghost i: nat)
    requires i < |g.players| && g.players[i] == p && Distinct(g.players)
    modifies g, p
    ensures Snap(g) == Snapshot(old(g.Roster())[i := old(Mementos(g.players))[i]], old(g.memento.fields))
    ensures g.players == old(g.players) && g.Fixed() == old(g.Fixed())
    ensures Mementos(g.players) == old(Mementos(g.players))
  {
    UndoBettor(g, p, i);
    g.Undo();
  }
}
