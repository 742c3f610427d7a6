/** GameRoom of gameroom/gameroom.go: a room around one game of
    game/game.go.  Starting, betting, joining and finding a player go to the
    game unchanged; leaving is the room's own operation. */
module Rooms {
  import opened GameError
  import opened Players
  import opened TurnOrder
  import opened Table
  import opened Games
  import opened Winners
  import opened Betting
  import opened Admission
  import opened Service
  import Deck

  /** LeavePlayer on the players `t` of a game that is `started` or not: an
      unknown nickname is refused; before the start the player's seat is
      taken out, the others keeping their order; during a game the player
      is only marked as left. */
  function LeaveSpec(t: seq<PlayerState>, started: bool, name: string): (r: (Outcome<()>, seq<PlayerState>))
    ensures r.0.Ok? <==> PlayerIdx(t, name).Ok?
    ensures r.0.Fail? ==> r.0 == Fail(NoPlayerExists) && r.1 == t
    ensures |r.1| == if r.0.Ok? && !started then |t| - 1 else |t|
  {
    match PlayerIdx(t, name)
    case Ok(i) =>
      if !started then (Ok(()), t[..i] + t[i + 1..])
      else (Ok(()), t[i := t[i].(isLeft := true)])
    case _ => (Fail(NoPlayerExists), t)
  }

  /** Before the start, leaving takes out one player: the one with the
      nickname, and with unique nicknames nobody with it stays; every other
      player keeps its place relative to the rest. */
  lemma LeaveBeforeStart(t: seq<PlayerState>, name: string)
    requires PlayerIdx(t, name).Ok? && UniqueNames(t)
    ensures var i := PlayerIdx(t, name).value;
            var r := LeaveSpec(t, false, name);
      && r.0 == Ok(())
      && |r.1| == |t| - 1
      && multiset(r.1) + multiset{t[i]} == multiset(t)
      && (forall k | 0 <= k < |r.1| :: r.1[k] == t[if k < i then k else k + 1])
      && (forall k | 0 <= k < |r.1| :: r.1[k].nickname != name)
      && UniqueNames(r.1)
  {
    var i := PlayerIdx(t, name).value;
    var r := LeaveSpec(t, false, name);
    assert t == t[..i] + [t[i]] + t[i + 1..];
    assert r.1 == t[..i] + t[i + 1..];
    forall k | 0 <= k < |r.1|
      ensures r.1[k] == t[if k < i then k else k + 1]
    {
    }
  }

  /** During a game, leaving changes one flag of one player: the seat list
      and everybody else stay, and the player is still found there. */
  lemma LeaveDuringGame(t: seq<PlayerState>, name: string)
    requires PlayerIdx(t, name).Ok?
    ensures var i := PlayerIdx(t, name).value;
            var r := LeaveSpec(t, true, name);
      && r.0 == Ok(())
      && |r.1| == |t|
      && r.1[i].isLeft && r.1[i] == t[i].(isLeft := true)
      && (forall k | 0 <= k < |t| && k != i :: r.1[k] == t[k])
      && PlayerIdx(r.1, name) == Ok(i)
  {
    var i := PlayerIdx(t, name).value;
    PlayerIdxKeeps(t, name, i, t[i].(isLeft := true));
  }

  class GameRoom {
    const id: string
    const name: string
    const hostName: string
    const limit: nat
    const game: Game

    /** NewGameRoom around the game `game`; the room's id is the parameter
        `id` rather than a drawn uuid. */
    constructor (id: string, name: string, hostName: string, game: Game)
      ensures this.id == id && this.name == name && this.hostName == hostName
      ensures limit == RoomLimit && this.game == game
    {
      this.id := id;
      this.name := name;
      this.hostName := hostName;
      limit := RoomLimit;
      this.game := game;
    }

    /** StartGame: the game's Start. */
    method StartGame(dealOk: bool, saveOk: bool) returns (r: Outcome<StartResponse>)
      requires Distinct(game.players)
      modifies game, game.deck, set p | p in game.players
      ensures var e := StartSpec(old(game.Roster()), old(Mementos(game.players)), old(game.Fields()),
                                 old(game.memento.fields), old(game.deck.cards), dealOk, saveOk);
        r == e.0 && (!r.Panic? ==> game.Roster() == e.1 && game.Fields() == e.2)
      ensures game.players == old(game.players) && game.Fixed() == old(game.Fixed())
    {
      r := Start(game, dealOk, saveOk);
    }

    /** Bet: the game's Bet, in its game/game.go version. */
    method Bet(info: BetInfo, wr: Writes, picks: seq<int>) returns (r: Outcome<BetResponse>)
      requires Distinct(game.players) && SeparateMementos(game.players) && Deck.ShufflePicks(picks, 52)
      modifies game, set p | p in game.players, set p | p in game.players :: p.memento
      ensures var e := BetSpec(Legacy, old(Snap(game)), old(Mementos(game.players)), old(game.memento.fields),
                               info, wr, game.deck);
        r == e.0 && (!r.Panic? ==> Snap(game) == e.1)
    {
      r := Service.Bet(game, Legacy, info, wr, picks);
    }

    /** AddPlayer: the game's AddPlayer. */
    method AddPlayer(p: Player, saveOk: bool) returns (r: Outcome<()>)
      modifies game, game.memento
      ensures PlayerIdx(old(game.Roster()), p.nickname).Ok? ==>
        r == Fail(PlayerAlreadyExists) && game.players == old(game.players)
      ensures !PlayerIdx(old(game.Roster()), p.nickname).Ok? && |old(game.players)| > RoomLimit ==>
        r == Fail(PlayerLimitationError) && game.players == old(game.players)
      ensures !PlayerIdx(old(game.Roster()), p.nickname).Ok? && |old(game.players)| <= RoomLimit ==>
        game.players == old(game.players) + [p] && (r == Ok(()) <==> saveOk)
    {
      r := Admission.AddPlayer(game, p, saveOk);
    }

    /** FindPlayer: the game's first player with the nickname, or null. */
    method FindPlayer(nickname: string) returns (p: Player?)
      ensures var r := PlayerIdx(game.Roster(), nickname);
        && (r.Ok? ==> p == game.players[r.value])
        && (!r.Ok? ==> p == null)
    {
      p := game.FindPlayer(nickname);
    }

    /** LeavePlayer: it does what LeaveSpec says; before the start the
        player objects that stay are the old ones, in the old order. */
    method LeavePlayer(nickname: string) returns (r: Outcome<()>)
      requires Distinct(game.players)
      modifies game`players, set p | p in game.players
      ensures (r, game.Roster()) == LeaveSpec(old(game.Roster()), game.isStarted, nickname)
      ensures var i := PlayerIdx(old(game.Roster()), nickname);
        game.players == if i.Ok? && !game.isStarted then old(game.players[..i.value] + game.players[i.value + 1..])
                        else old(game.players)
    {
      ghost var t := game.Roster();
      var p := FindPlayer(nickname);
      if p == null {
        return Fail(NoPlayerExists);
      }
      ghost var i := PlayerIdx(t, nickname).value;
      if !game.isStarted {
        r := RemovePlayer(p.nickname);
        return;
      }
      MarkLeft(p, i);
      r := Ok(());
    }

    /** The player `p`, in seat `i`, is marked as left. */
    method MarkLeft(p: Player, ghost i: nat)
      requires i < |game.players| && game.players[i] == p && Distinct(game.players)
      modifies p
      ensures game.Roster() == old(game.Roster())[i := old(game.Roster())[i].(isLeft := true)]
    {
      p.isLeft := true;
    }

    /** removePlayer: the first seat with the nickname is taken out of the
        players; without one, the slice expression panics. */
    method RemovePlayer(nickname: string) returns (r: Outcome<()>)
      modifies game`players
      ensures var i := PlayerIdx(old(game.Roster()), nickname);
        && (i.Ok? ==> && r == Ok(())
                      && game.players == old(game.players[..i.value] + game.players[i.value + 1..])
                      && game.Roster() == old(game.Roster()[..i.value] + game.Roster()[i.value + 1..]))
        && (!i.Ok? ==> r == Panic && game.players == old(game.players))
    {
      ghost var ps := game.players;
      var removeIndex := SeatOf(nickname);
      if removeIndex < 0 {
        return Panic;
      }
      StatesWithout(ps, removeIndex);
      game.players := game.players[..removeIndex] + game.players[removeIndex + 1..];
      assert game.Roster() == States(ps[..removeIndex] + ps[removeIndex + 1..]);
      r := Ok(());
    }

    /** The search loop of removePlayer: the first seat with the nickname,
        or -1. */
    method SeatOf(nickname: string) returns (removeIndex: int)
      ensures var i := PlayerIdx(game.Roster(), nickname);
        removeIndex == if i.Ok? then i.value else -1
    {
      ghost var t := game.Roster();
      removeIndex := -1;
      var i := 0;
      while i < |game.players|
        invariant 0 <= i <= |game.players|
        invariant PlayerIdxFrom(t, nickname, i) == PlayerIdx(t, nickname)
      {
        if nickname == game.players[i].nickname {
          return i;
        }
        i := i + 1;
      }
    }
  }

  /** Taking a seat out of the players and out of their states agree. */
  lemma StatesWithout(ps: seq<Player>, i: nat)
    requires i < |ps|
    ensures States(ps[..i] + ps[i + 1..]) == States(ps)[..i] + States(ps)[i + 1..]
  {
    var l := ps[..i] + ps[i + 1..];
    forall k | 0 <= k < |l|
      ensures States(l)[k] == (States(ps)[..i] + States(ps)[i + 1..])[k]
    {
      assert l[k] == ps[if k < i then k else k + 1];
    }
  }
}
