/** The Game entity of domain/entity/game.go: the table's fields, its
    shared memento, and the methods that change them.  The service of
    service/game and game/game.go keep the same fields and run the same
    steps; where their steps differ, the `Version` parameter says so. */
module Games {
  import opened GameError
  import opened Uint64
  import opened Cards
  import opened Players
  import opened TurnOrder
  import opened Table
  import opened Winners
  import Deck
  import Sorting

  /** The thirteen fields a GameMemento holds, as one value.  The deck is a
      reference: the memento shares the deck object, it does not copy the cards. */
  datatype GameFields = GameFields(
    roomId: int,
    roomLimit: nat,
    totalBet: u64,
    currentBet: u64,
    isStarted: bool,
    deck: Deck.Deck,
    status: Status,
    sb: nat,
    bb: nat,
    first: nat,
    isFirstPlayerBet: bool,
    current: nat,
    betLeader: nat)

  /** Seat indices 0 and the first-bet flag clear, as a new memento leaves them. */
  predicate FreshSeats(f: GameFields)
  {
    f.sb == 0 && f.bb == 0 && f.first == 0 && f.current == 0 && f.betLeader == 0 && !f.isFirstPlayerBet
  }

  /** NewGameMemento: copies the room, the two bets, the started flag, the
      reference to the deck and the status; every seat index starts at 0 and the
      first-bet flag false. */
  function NewGameMemento(g: GameFields): (m: GameFields)
    ensures m.roomId == g.roomId && m.roomLimit == g.roomLimit
    ensures m.totalBet == g.totalBet && m.currentBet == g.currentBet
    ensures m.isStarted == g.isStarted && m.deck == g.deck && m.status == g.status
    ensures FreshSeats(m)
  {
    GameFields(g.roomId, g.roomLimit, g.totalBet, g.currentBet, g.isStarted, g.deck, g.status,
               0, 0, 0, false, 0, 0)
  }

  /** The memento is the game itself exactly when no seat index is set yet. */
  lemma MementoKeepsUnseatedGame(g: GameFields)
    ensures NewGameMemento(g) == g <==> FreshSeats(g)
  {
  }

  /** What a successful setPlayers writes: the two blinds and the first
      player, who also becomes the current player and the bet leader, and a
      cleared first-bet flag. */
  function Seated(f: GameFields, s: Seats): GameFields
  {
    f.(sb := s.sb, bb := s.bb, first := s.first, current := s.first, betLeader := s.first,
       isFirstPlayerBet := false)
  }

  /** Removing seats from the players and from their states agree. */
  lemma {:induction false} RemoveAllStates(ps: seq<Player>, seats: seq<nat>)
    ensures RemoveAll(States(ps), seats).Ok? <==> RemoveAll(ps, seats).Ok?
    ensures RemoveAll(ps, seats).Ok? ==> RemoveAll(States(ps), seats).value == States(RemoveAll(ps, seats).value)
    decreases |seats|
  {
    if seats != [] && seats[0] < |ps| {
      var i := seats[0];
      var q := ps[..i] + ps[i + 1..];
      assert States(ps)[..i] + States(ps)[i + 1..] == States(q);
      RemoveAllStates(q, seats[1..]);
    }
  }

  /** Once one comparison panics, the whole fold does. */
  lemma {:induction false} FoldPanics(t: seq<PlayerState>, order: seq<nat>, i: nat)
    requires AtTable(t, order) && 1 <= i <= |order|
    requires FoldWinners(t, order, i) == Panic
    ensures FoldWinners(t, order, |order|) == Panic
    decreases |order| - i
  {
    if i < |order| {
      FoldPanics(t, order, i + 1);
    }
  }

  /** The first loop of removeLeftPlayers: the seats that were left, and
      where the two blinds move. */
  method ScanLeft(t: seq<PlayerState>, sb: nat, bb: nat) returns (seats: seq<nat>, s: nat, b: nat)
    ensures seats == LeftSeats(t) && s == MoveBlind(t, sb, 0) && b == MoveBlind(t, bb, 0)
  {
    var n := |t|;
    s, b := sb, bb;
    seats := [];
    var i := 0;
    while i < n
      invariant 0 <= i <= n
      invariant seats == Select(t[..i], IsLeft)
      invariant MoveBlind(t, sb, 0) == MoveBlind(t, s, i)
      invariant MoveBlind(t, bb, 0) == MoveBlind(t, b, i)
    {
      ghost var s0, b0, seats0 := s, b, seats;
      if t[i].isLeft {
        if s == i {
          s := NextIdx(n, i);
        }
        if b == i {
          b := NextIdx(n, i);
        }
        seats := seats + [i];
      }
      assert seats == Select(t[..i + 1], IsLeft) by {
        SelectSnoc(t[..i], t[i], IsLeft);
        assert t[..i] + [t[i]] == t[..i + 1];
      }
      assert MoveBlind(t, s0, i) == MoveBlind(t, s, i + 1);
      assert MoveBlind(t, b0, i) == MoveBlind(t, b, i + 1);
      i := i + 1;
    }
    assert t[..n] == t;
  }

  /** The second loop of removeLeftPlayers: removePlayerByIndex at each
      recorded seat, on the list as the earlier removals left it. */
  method RemoveSeats<T>(s: seq<T>, seats: seq<nat>) returns (r: Outcome<seq<T>>)
    ensures r == RemoveAll(s, seats)
  {
    var rest := s;
    var j := 0;
    while j < |seats|
      invariant 0 <= j <= |seats|
      invariant RemoveAll(s, seats) == RemoveAll(rest, seats[j..])
    {
      assert seats[j..][0] == seats[j] && seats[j..][1..] == seats[j + 1..];
      if seats[j] >= |rest| {
        return Panic;
      }
      rest := rest[..seats[j]] + rest[seats[j] + 1..];
      j := j + 1;
    }
    assert seats[j..] == [];
    r := Ok(rest);
  }

  /** sort.Slice on a slice of seats. */
  method SortSeats(s: seq<nat>, key: nat -> int) returns (r: seq<nat>)
    ensures r == Sorting.SortBy(s, key)
  {
    var a := new nat[|s|](k requires 0 <= k < |s| => s[k]);
    assert a[..] == s;
    Sorting.SortSlice(a, key);
    r := a[..];
  }

  /** The winner loop of GetWinnersAndLosers. */
  method Fold(t: seq<PlayerState>, order: seq<nat>) returns (r: Outcome<seq<nat>>)
    requires AtTable(t, order) && |order| >= 1
    ensures r == FoldWinners(t, order, |order|)
  {
    var winners: seq<nat> := [order[0]];
    var i := 1;
    while i < |order|
      invariant 1 <= i <= |order|
      invariant FoldWinners(t, order, i) == Ok(winners)
      invariant AtTable(t, winners) && |winners| > 0
    {
      var w := winners[0];
      var p := order[i];
      var c := Judge(t[w], t[p]);
      if c.Panic? {
        FoldPanics(t, order, i + 1);
        return Panic;
      }
      match c.value {
        case Player1Win =>
        case Player2Win =>
          if t[w].totalBet == t[p].totalBet {
            winners := [p];
          } else {
            winners := winners + [p];
          }
        case Draw =>
          winners := winners + [p];
      }
      i := i + 1;
    }
    r := Ok(winners);
  }

  /** The loser loop of GetWinnersAndLosers: each player of the pool whose
      nickname no winner has. */
  method CollectLosers(t: seq<PlayerState>, pool: seq<nat>, winners: seq<nat>) returns (losers: seq<nat>)
    requires AtTable(t, pool) && AtTable(t, winners)
    ensures losers == Losers(t, pool, winners)
  {
    losers := [];
    var j := 0;
    while j < |pool|
      invariant 0 <= j <= |pool|
      invariant losers == Losers(t, pool[..j], winners)
    {
      assert (pool[..j + 1])[..j] == pool[..j];
      var p := pool[j];
      var isExist := false;
      var m := 0;
      while m < |winners|
        invariant 0 <= m <= |winners|
        invariant !isExist ==> forall k | 0 <= k < m :: t[winners[k]].nickname != t[p].nickname
        invariant NamedIn(t, t[p].nickname, winners) || !isExist
      {
        if t[p].nickname == t[winners[m]].nickname {
          isExist := true;
          break;
        }
        m := m + 1;
      }
      if !isExist {
        losers := losers + [p];
      }
      j := j + 1;
    }
    assert pool[..j] == pool;
  }

  /** The body of GetWinnersAndLosers once the two filters have run. */
  method Settle(t: seq<PlayerState>, version: Version, valid: seq<nat>, ready: seq<nat>)
      returns (r: Outcome<(seq<nat>, seq<nat>)>)
    requires valid == ValidIndices(t) && ready == ReadyIndices(t)
    ensures r == WinnersAndLosers(t, version)
  {
    if |valid| == 0 {
      return Fail(ZeroPlayer);
    }
    if |valid| == 1 {
      return Ok(([valid[0]], []));
    }
    var order := SortSeats(valid, MostBetFirst(t));
    assert order == Order(t);
    var folded := Fold(t, order);
    assert folded == Folded(t) by {
      assert order[..|order|] == order;
    }
    if !folded.Ok? {
      return Panic;
    }
    SortKeepsSeats(t, folded.value, LeastBetFirst(t));
    var winners := SortSeats(folded.value, LeastBetFirst(t));
    var pool := if version == Legacy then order else ready;
    var losers := CollectLosers(t, pool, winners);
    r := Ok((winners, losers));
  }

  /** Two rounds of `Deck.GetCard`, as one player's deal takes them. */
  method DrawPair(deck: Deck.Deck) returns (c1: Card, c2: Card)
    requires |deck.cards| >= 2
    modifies deck
    ensures var n := |old(deck.cards)|;
      c1 == old(deck.cards)[n - 1] && c2 == old(deck.cards)[n - 2] && deck.cards == old(deck.cards)[..n - 2]
  {
    c1 := deck.GetCard();
    c2 := deck.GetCard();
  }

  /** The shared `*GameMemento` a game points to. */
  class GameMemento {
    var fields: GameFields

    constructor (f: GameFields)
      ensures fields == f
    {
      fields := f;
    }
  }

  class Game {
    var memento: GameMemento
    var roomId: int
    var roomLimit: nat
    var hostName: string
    var players: seq<Player>
    var minBetAmount: u64
    var totalBet: u64
    var currentBet: u64
    var isStarted: bool
    var deck: Deck.Deck
    var status: Status
    var sb: nat
    var bb: nat
    var first: nat
    var isFirstPlayerBet: bool
    var current: nat
    var betLeader: nat

    /** The thirteen memento fields as a value. */
    function Fields(): GameFields
      reads this
    {
      GameFields(roomId, roomLimit, totalBet, currentBet, isStarted, deck, status,
                 sb, bb, first, isFirstPlayerBet, current, betLeader)
    }

    /** The fields no memento covers, apart from the players. */
    function Fixed(): (GameMemento, string, u64)
      reads this
    {
      (memento, hostName, minBetAmount)
    }

    /** The players' states, seat by seat. */
    function Roster(): seq<PlayerState>
      reads this`players, set p | p in players
    {
      States(players)
    }

    /** NewGame: the host alone at the table, nothing bet, not started, a new
        deck, FreeFlop, and a memento taken from those fields. */
    constructor NewGame(roomId: int, roomLimit: nat, host: Player, minBetAmount: u64, picks: seq<int>)
      requires Deck.ShufflePicks(picks, 52)
      ensures players == [host] && hostName == host.nickname && this.minBetAmount == minBetAmount
      ensures this.roomId == roomId && this.roomLimit == roomLimit
      ensures totalBet == 0 && currentBet == 0 && !isStarted && status == FreeFlop
      ensures FreshSeats(Fields())
      ensures fresh(deck) && |deck.cards| == 52 && multiset(deck.cards) == multiset(Deck.FullDeck())
      ensures fresh(memento) && memento.fields == Fields()
    {
      var d := new Deck.Deck(picks);
      this.roomId := roomId;
      this.roomLimit := roomLimit;
      hostName := host.nickname;
      players := [host];
      this.minBetAmount := minBetAmount;
      totalBet := 0;
      currentBet := 0;
      isStarted := false;
      deck := d;
      status := FreeFlop;
      sb, bb, first, isFirstPlayerBet, current, betLeader := 0, 0, 0, false, 0, 0;
      memento := new GameMemento(NewGameMemento(
        GameFields(roomId, roomLimit, 0, 0, false, d, FreeFlop, 0, 0, 0, false, 0, 0)));
    }

    /** Undo: the thirteen fields take the memento's values; the players, the
        host, the minimum bet and the memento itself are left alone. */
    method Undo()
      modifies this
      ensures Fields() == old(memento.fields)
      ensures players == old(players) && Fixed() == old(Fixed())
    {
      SetFields(memento.fields);
    }

    /** Writes the thirteen memento fields at once. */
    method SetFields(f: GameFields)
      modifies this
      ensures Fields() == f
      ensures players == old(players) && Fixed() == old(Fixed())
    {
      SetTable(f);
      SetRound(f);
      SetSeats(f);
    }

    /** Part of SetFields: the room and the two bet totals. */
    method SetTable(f: GameFields)
      modifies this
      ensures Fields() == old(Fields()).(roomId := f.roomId, roomLimit := f.roomLimit,
                                         totalBet := f.totalBet, currentBet := f.currentBet)
      ensures players == old(players) && Fixed() == old(Fixed())
    {
      roomId, roomLimit, totalBet, currentBet := f.roomId, f.roomLimit, f.totalBet, f.currentBet;
    }

    /** Part of SetFields: the flags, the deck and the street. */
    method SetRound(f: GameFields)
      modifies this
      ensures Fields() == old(Fields()).(isStarted := f.isStarted, deck := f.deck, status := f.status,
                                         isFirstPlayerBet := f.isFirstPlayerBet)
      ensures players == old(players) && Fixed() == old(Fixed())
    {
      isStarted, deck, status, isFirstPlayerBet := f.isStarted, f.deck, f.status, f.isFirstPlayerBet;
    }

    /** Part of SetFields: the five seat indices. */
    method SetSeats(f: GameFields)
      modifies this
      ensures Fields() == old(Fields()).(sb := f.sb, bb := f.bb, first := f.first,
                                         current := f.current, betLeader := f.betLeader)
      ensures players == old(players) && Fixed() == old(Fixed())
    {
      sb, bb, first, current, betLeader := f.sb, f.bb, f.first, f.current, f.betLeader;
    }

    /** SetMemento: the memento takes the thirteen current values. */
    method SetMemento()
      modifies memento
      ensures memento.fields == Fields()
    {
      memento.fields := Fields();
    }

    /** The filter loop of GetValidPlayers and GetReadyPlayers, as seats. */
    method SelectSeats(keep: PlayerState -> bool) returns (s: seq<nat>)
      ensures s == Select(Roster(), keep)
    {
      ghost var t := Roster();
      s := [];
      var i := 0;
      while i < |players|
        invariant 0 <= i <= |players|
        invariant s == Select(t[..i], keep)
      {
        SelectSnoc(t[..i], t[i], keep);
        assert t[..i] + [t[i]] == t[..i + 1];
        if keep(players[i].State()) {
          s := s + [i];
        }
        i := i + 1;
      }
      assert t[..i] == t;
    }

    /** GetValidPlayers: the players still in the hand, in table order. */
    method GetValidPlayers() returns (v: seq<Player>)
      ensures var s := ValidIndices(Roster());
        |v| == |s| && forall k | 0 <= k < |s| :: v[k] == players[s[k]]
    {
      var s := SelectSeats(InHand);
      v := seq(|s|, k requires 0 <= k < |s| && s[k] < |players| reads this => players[s[k]]);
    }

    /** GetReadyPlayers: the ready players, in table order. */
    method GetReadyPlayers() returns (v: seq<Player>)
      ensures var s := ReadyIndices(Roster());
        |v| == |s| && forall k | 0 <= k < |s| :: v[k] == players[s[k]]
    {
      var s := SelectSeats(IsReady);
      v := seq(|s|, k requires 0 <= k < |s| && s[k] < |players| reads this => players[s[k]]);
    }

    /** FindPlayer: the first player with the nickname, or nil. */
    method FindPlayer(name: string) returns (p: Player?)
      ensures var r := PlayerIdx(Roster(), name);
        && (r.Ok? ==> p == players[r.value])
        && (!r.Ok? ==> p == null)
    {
      ghost var t := Roster();
      var i := 0;
      while i < |players|
        invariant 0 <= i <= |players|
        invariant PlayerIdxFrom(t, name, i) == PlayerIdx(t, name)
      {
        if players[i].nickname == name {
          return players[i];
        }
        i := i + 1;
      }
      p := null;
    }

    /** ClearPlayersCurrentBet: every player's current bet goes to 0 and
        nothing else of theirs changes. */
    method ClearPlayersCurrentBet()
      modifies set p | p in players
      ensures Roster() == MapStates(ClearedBet, old(Roster()))
      ensures Mementos(players) == old(Mementos(players))
    {
      ghost var t := Roster();
      ghost var ms := Mementos(players);
      var i := 0;
      while i < |players|
        invariant 0 <= i <= |players|
        invariant Mementos(players) == ms
        invariant ClearedTo(t, i)
      {
        ClearStep(t, i);
        i := i + 1;
      }
      assert players[..i] == players;
    }

    /** The players among the first `i` seats have their current bet cleared
        from `t`, the others still hold `t`. */
    ghost predicate ClearedTo(t: seq<PlayerState>, i: nat)
      reads this, set p | p in players
    {
      && |t| == |players| && i <= |players|
      && forall k | 0 <= k < |players| ::
           players[k].State() == if players[k] in players[..i] then ClearedBet(t[k]) else t[k]
    }

    /** One round of ClearPlayersCurrentBet's loop. */
    method ClearStep(ghost t: seq<PlayerState>, i: nat)
      requires i < |players| && ClearedTo(t, i)
      modifies players[i]
      ensures ClearedTo(t, i + 1)
      ensures Mementos(players) == old(Mementos(players))
    {
      var p := players[i];
      ghost var s0 := p.State();
      p.ClearCurrentBet();
      forall k | 0 <= k < |players|
        ensures players[k].State() == if players[k] in players[..i + 1] then ClearedBet(t[k]) else t[k]
      {
        if players[k] == p {
          assert old(players[k].State()) == s0;
        }
      }
    }

    /** GetNextPlayerIdx: walk from the current seat to the next ready seat,
        at most once round the table, stopping at a player still in the hand. */
    method GetNextPlayerIdx() returns (r: Outcome<nat>)
      ensures r == NextPlayerIdx(Roster(), current)
    {
      var t := Roster();
      var n: nat := |players|;
      var idx: nat := current;
      var i: nat := 0;
      var stop := false;
      while i < n && !stop
        invariant 0 <= i <= n
        invariant stop ==> Walk(t, current, n) == Ok(idx)
        invariant !stop ==> i <= n && Walk(t, current, n) == Walk(t, idx, n - i)
      {
        if idx + 1 >= n {
          return Panic;
        }
        var j := ReadyPlayerIdx(t, idx + 1);
        stop := InHand(t[j]);
        idx := j;
        i := i + 1;
      }
      r := if idx == current then Fail(NoPlayersLeft) else Ok(idx);
    }

    /** The loop of setPlayers that collects the ready players' nicknames. */
    method ReadyPlayerNames() returns (names: seq<string>)
      ensures names == ReadyNames(Roster())
    {
      ghost var t := Roster();
      names := [];
      var i := 0;
      while i < |players|
        invariant 0 <= i <= |players|
        invariant names == ReadyNames(t[..i])
      {
        assert (t[..i + 1])[..i] == t[..i];
        if players[i].isReady {
          names := names + [players[i].nickname];
        }
        i := i + 1;
      }
      assert t[..i] == t;
    }

    /** The seat choice of setPlayers once enough players are ready: the
        first hand starts from the first ready seat, later hands from the
        seat after the small blind; two players take seats 0 and 1, then
        swap the blinds. */
    static method ChooseSeats(t: seq<PlayerState>, sb: nat, bb: nat) returns (a: Outcome<Seats>)
      requires |t| >= 2 && |ReadyIndices(t)| >= 2
      ensures a == AssignSeats(t, sb, bb)
    {
      if sb == 0 && bb == 0 {
        if |t| > 2 {
          var s := ReadyPlayerIdx(t, 0);
          if s + 1 >= |t| {
            a := Panic;
          } else {
            var b := ReadyPlayerIdx(t, s + 1);
            a := if b + 1 >= |t| then Panic else Ok(Seats(s, b, ReadyPlayerIdx(t, b + 1)));
          }
        } else {
          a := Ok(Seats(0, 1, 0));
        }
      } else {
        if |t| > 2 {
          if sb + 1 >= |t| {
            a := Panic;
          } else {
            var s := ReadyPlayerIdx(t, sb + 1);
            if s + 1 >= |t| {
              a := Panic;
            } else {
              var b := ReadyPlayerIdx(t, s + 1);
              a := if b + 1 >= |t| then Panic else Ok(Seats(s, b, ReadyPlayerIdx(t, b + 1)));
            }
          }
        } else {
          a := Ok(Seats(bb, sb, bb));
        }
      }
    }

    /** setPlayers: the nicknames of the ready players, and the blinds and the
        first player as AssignSeats places them; the current player and the
        bet leader become the first player.  An error changes nothing. */
    method SetPlayers() returns (r: Outcome<seq<string>>)
      modifies this
      ensures players == old(players) && Fixed() == old(Fixed())
      ensures Roster() == old(Roster())
      ensures var a := AssignSeats(Roster(), old(sb), old(bb));
        a.Fail? ==> r == Fail(a.error) && Fields() == old(Fields())
      ensures AssignSeats(Roster(), old(sb), old(bb)).Panic? ==> r == Panic
      ensures var a := AssignSeats(Roster(), old(sb), old(bb));
        a.Ok? ==> && r == Ok(ReadyNames(Roster()))
                  && Fields() == Seated(old(Fields()), a.value)
    {
      var t := Roster();
      var n := |players|;
      if n < 2 {
        return Fail(LackOfPlayers);
      }
      var names := ReadyPlayerNames();
      ReadyNamesCount(t);
      if |names| < 2 {
        return Fail(NotEnoughPlayersReady);
      }
      var a := ChooseSeats(t, sb, bb);
      if a.Panic? {
        return Panic;
      }
      SetFields(Seated(Fields(), a.value));
      r := Ok(names);
    }

    /** removeLeftPlayers: a blind on a seat that was left moves to the next
        seat, then the recorded seats are removed one after another. */
    method RemoveLeftPlayers() returns (r: Outcome<()>)
      modifies this
      ensures Fixed() == old(Fixed()) && deck == old(deck)
      ensures forall p | p in players :: p in old(players)
      ensures var rl := RemoveLeft(old(Roster()), old(sb), old(bb));
        && (rl.Panic? ==> r == Panic)
        && (rl.Ok? ==> && r == Ok(())
                       && RemoveAll(old(players), LeftSeats(old(Roster()))) == Ok(players)
                       && Roster() == rl.value.0
                       && Fields() == old(Fields()).(sb := rl.value.1, bb := rl.value.2))
    {
      var t := Roster();
      var seats, s, b := ScanLeft(t, sb, bb);
      var rest := RemoveSeats(players, seats);
      RemoveAllStates(players, seats);
      RemoveAllKeeps(players, seats);
      if !rest.Ok? {
        return Panic;
      }
      players := rest.value;
      SetFields(Fields().(sb := s, bb := b));
      r := Ok(());
    }

    /** The player loop of InitGame: every player starts a new hand. */
    method ResetPlayers()
      modifies set p | p in players
      ensures Roster() == MapStates(NewHand, old(Roster()))
    {
      ghost var t := Roster();
      var i := 0;
      while i < |players|
        invariant 0 <= i <= |players|
        invariant forall k | 0 <= k < |players| ::
          players[k].State() == if players[k] in players[..i] then NewHand(t[k]) else t[k]
      {
        var p := players[i];
        p.ResetHand();
        forall k | 0 <= k < |players|
          ensures players[k].State() == if players[k] in players[..i + 1] then NewHand(t[k]) else t[k]
        {
          if players[k] == p {
            assert t[k] == t[i];
          }
        }
        i := i + 1;
      }
      assert players[..i] == players;
    }

    /** InitGame: bets and flags cleared, a new deck, FreeFlop, the players
        who left removed, and every remaining player starting a new hand; the
        seat indices other than the blinds are kept. */
    method InitGame(picks: seq<int>) returns (r: Outcome<()>)
      requires Deck.ShufflePicks(picks, 52)
      modifies this, set p | p in players
      ensures Fixed() == old(Fixed())
      ensures fresh(deck) && |deck.cards| == 52 && multiset(deck.cards) == multiset(Deck.FullDeck())
      ensures var rl := RemoveLeft(old(Roster()), old(sb), old(bb));
        && (rl.Panic? ==> r == Panic)
        && (rl.Ok? ==> && r == Ok(())
                       && Roster() == MapStates(NewHand, rl.value.0)
                       && Fields() == old(Fields()).(totalBet := 0, currentBet := 0, isStarted := false,
                                                    deck := deck, status := FreeFlop, isFirstPlayerBet := false,
                                                    sb := rl.value.1, bb := rl.value.2))
    {
      ghost var t := Roster();
      var d := new Deck.Deck(picks);
      SetFields(Fields().(totalBet := 0, currentBet := 0, isStarted := false, deck := d, status := FreeFlop,
                          isFirstPlayerBet := false));
      assert Roster() == t;
      ghost var rl := RemoveLeft(t, old(sb), old(bb));
      r := RemoveLeftPlayers();
      if r.Panic? {
        return;
      }
      ghost var f := Fields();
      assert Roster() == rl.value.0;
      ResetPlayers();
      assert Fields() == f;
    }

    /** GiveCardsToPlayers: as many players as are in the hand each take two
        cards from the end of the deck; they are the players in the first
        seats, whether or not they are in the hand.  Go panics when the deck
        runs out. */
    method GiveCardsToPlayers() returns (r: Outcome<()>)
      requires Distinct(players)
      modifies deck, set p | p in players
      ensures var k := |ValidIndices(old(Roster()))|;
              var d := old(deck.cards);
        && (2 * k > |d| ==> r == Panic)
        && (2 * k <= |d| ==> r == Ok(()) && Roster() == Dealt(old(Roster()), d, k)
                             && deck.cards == d[..|d| - 2 * k])
      ensures Mementos(players) == old(Mementos(players))
    {
      var valid := SelectSeats(InHand);
      r := DealRounds(|valid|);
    }

    /** The dealing loop of GiveCardsToPlayers, over the first `k` seats. */
    method DealRounds(k: nat) returns (r: Outcome<()>)
      requires k <= |players| && Distinct(players)
      modifies deck, set p | p in players
      ensures var d := old(deck.cards);
        && (2 * k > |d| ==> r == Panic)
        && (2 * k <= |d| ==> r == Ok(()) && Roster() == Dealt(old(Roster()), d, k)
                             && deck.cards == d[..|d| - 2 * k])
    {
      ghost var t := Roster();
      ghost var d := deck.cards;
      var i := 0;
      while i < k
        invariant 0 <= i <= k && 2 * i <= |d|
        invariant deck.cards == d[..|d| - 2 * i]
        invariant Roster() == Dealt(t, d, i)
      {
        if |deck.cards| < 2 {
          return Panic;
        }
        DealRound(t, d, i);
        i := i + 1;
      }
      r := Ok(());
    }

    /** One round of the dealing loop: the player in seat `i` draws two cards. */
    method DealRound(ghost t: seq<PlayerState>, ghost d: seq<Card>, i: nat)
      requires i < |players| == |t| && Distinct(players) && 2 * i + 2 <= |d|
      requires deck.cards == d[..|d| - 2 * i] && Roster() == Dealt(t, d, i)
      modifies deck, players[i]
      ensures deck.cards == d[..|d| - 2 * (i + 1)] && Roster() == Dealt(t, d, i + 1)
    {
      var c1, c2 := DrawPair(deck);
      assert c1 == d[|d| - 1 - 2 * i] && c2 == d[|d| - 2 - 2 * i];
      DealtStep(t, d, i);
      DealTo(i, c1, c2);
    }

    /** One round of the dealing loop: the player in seat `i` takes the two cards. */
    method DealTo(i: nat, c1: Card, c2: Card)
      requires i < |players| && Distinct(players)
      modifies players[i]
      ensures Roster() == old(Roster())[i := old(Roster())[i].(hands := old(Roster())[i].hands + [c1, c2])]
    {
      ghost var t := Roster();
      var p := players[i];
      p.hands := p.hands + [c1, c2];
      forall j | 0 <= j < |players| && j != i
        ensures players[j].State() == t[j]
      {
        assert players[j] != p;
      }
    }

    /** StartGame: setPlayers, whose error is ignored, then the deal. */
    method StartGame() returns (r: Outcome<()>)
      requires Distinct(players)
      modifies this, deck, set p | p in players
      ensures var a := AssignSeats(old(Roster()), old(sb), old(bb));
              var k := |ValidIndices(old(Roster()))|;
              var d := old(deck.cards);
        && (a.Panic? || 2 * k > |d| ==> r == Panic)
        && (!a.Panic? && 2 * k <= |d| ==>
              && r == Ok(())
              && Roster() == Dealt(old(Roster()), d, k)
              && deck == old(deck) && deck.cards == d[..|d| - 2 * k]
              && Fields() == if a.Ok? then Seated(old(Fields()), a.value) else old(Fields()))
    {
      var sp := SetPlayers();
      if sp.Panic? {
        return Panic;
      }
      r := GiveCardsToPlayers();
    }

    /** GetWinnersAndLosers (getWinnersAndLosers in service/game/utils.go and
        game/game.go), on seats: it computes WinnersAndLosers. */
    method GetWinnersAndLosers(version: Version) returns (r: Outcome<(seq<nat>, seq<nat>)>)
      ensures r == WinnersAndLosers(Roster(), version)
    {
      var t := Roster();
      var valid := SelectSeats(InHand);
      var ready := SelectSeats(IsReady);
      r := Settle(t, version, valid, ready);
      assert Roster() == t;
    }
  }
}
