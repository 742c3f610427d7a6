/** A seat at the table (domain/entity/player.go; the same fields and the
    same memento in player/player_memento.go) and its rollback snapshot. */
module Players {
  import opened Cards
  import opened Uint64
  import Showdown

  /** The fourteen fields `Undo` and `SetMemento` copy, as one value. */
  datatype PlayerState = PlayerState(
    id: int,
    nickname: string,
    isReady: bool,
    isDead: bool,
    isLeft: bool,
    isAllIn: bool,
    totalBalance: u64,
    gameBalance: u64,
    totalBet: u64,
    currentBet: u64,
    hands: seq<Card>,
    handsRank: int,
    highCard: int,
    bestCards: seq<Card>)

  /** Still playing this hand: ready, not folded and not gone
      (`IsReady && !IsDead && !IsLeft`, the test of `GetValidPlayers`). */
  predicate InHand(s: PlayerState)
  {
    s.isReady && !s.isDead && !s.isLeft
  }

  /** What `compare` looks at. */
  function ShowingOf(s: PlayerState): Showdown.Showing
  {
    Showdown.Showing(s.handsRank, s.highCard, s.bestCards)
  }

  /** The card fields a memento never takes from its player. */
  predicate NoCards(s: PlayerState)
  {
    s.hands == [] && s.handsRank == NoRank && s.highCard == NoRank && s.bestCards == []
  }

  /** The ten fields that are neither cards nor ranks. */
  predicate SameSeat(a: PlayerState, b: PlayerState)
  {
    a.id == b.id && a.nickname == b.nickname
    && a.isReady == b.isReady && a.isDead == b.isDead && a.isLeft == b.isLeft && a.isAllIn == b.isAllIn
    && a.totalBalance == b.totalBalance && a.gameBalance == b.gameBalance
    && a.totalBet == b.totalBet && a.currentBet == b.currentBet
  }

  /** NewPlayerMemento: copies id, nickname, the four flags and the four
      amounts; the hand, its rank, its high card and the best cards start
      empty. */
  function NewPlayerMemento(p: PlayerState): (m: PlayerState)
    ensures SameSeat(m, p) && NoCards(m)
  {
    PlayerState(p.id, p.nickname, p.isReady, p.isDead, p.isLeft, p.isAllIn,
                p.totalBalance, p.gameBalance, p.totalBet, p.currentBet, [], NoRank, NoRank, [])
  }

  /** A memento is the player itself exactly when the player holds no cards. */
  lemma MementoKeepsCardlessPlayer(p: PlayerState)
    ensures NewPlayerMemento(p) == p <==> NoCards(p)
  {
  }

  /** ClearPlayersCurrentBet on one player: only the current bet goes to 0. */
  function ClearedBet(s: PlayerState): PlayerState
  {
    s.(currentBet := 0)
  }

  /** InitGame on one player: bets, fold and all-in flags and every card
      field cleared; identity, readiness, the left flag and the balances kept. */
  function NewHand(s: PlayerState): (r: PlayerState)
    ensures r.id == s.id && r.nickname == s.nickname && r.isReady == s.isReady && r.isLeft == s.isLeft
    ensures r.totalBalance == s.totalBalance && r.gameBalance == s.gameBalance
    ensures r.currentBet == 0 && r.totalBet == 0 && !r.isDead && !r.isAllIn && NoCards(r)
  {
    s.(currentBet := 0, totalBet := 0, isDead := false, isAllIn := false,
       hands := [], handsRank := NoRank, highCard := NoRank, bestCards := [])
  }

  /** The shared `*PlayerMemento` a player points to. */
  class PlayerMemento {
    var state: PlayerState

    constructor (s: PlayerState)
      ensures state == s
    {
      state := s;
    }
  }

  class Player {
    const memento: PlayerMemento
    var id: int
    var nickname: string
    var isReady: bool
    var isDead: bool
    var isLeft: bool
    var isAllIn: bool
    var totalBalance: u64
    var gameBalance: u64
    var totalBet: u64
    var currentBet: u64
    var hands: seq<Card>
    var handsRank: int
    var highCard: int
    var bestCards: seq<Card>

    /** The fourteen fields as a value. */
    function State(): PlayerState
      reads this
    {
      PlayerState(id, nickname, isReady, isDead, isLeft, isAllIn,
                  totalBalance, gameBalance, totalBet, currentBet,
                  hands, handsRank, highCard, bestCards)
    }

    /** New: no flag set, nothing bet, the given balances, no cards, and a
        fresh memento holding exactly that state. */
    constructor New(id: int, nickname: string, totalBalance: u64, gameBalance: u64)
      ensures State() == PlayerState(id, nickname, false, false, false, false,
                                     totalBalance, gameBalance, 0, 0, [], NoRank, NoRank, [])
      ensures fresh(memento) && memento.state == State()
    {
      this.id := id;
      this.nickname := nickname;
      isReady := false;
      isDead := false;
      isLeft := false;
      isAllIn := false;
      this.totalBalance := totalBalance;
      this.gameBalance := gameBalance;
      totalBet := 0;
      currentBet := 0;
      hands := [];
      handsRank := NoRank;
      highCard := NoRank;
      bestCards := [];
      memento := new PlayerMemento(PlayerState(id, nickname, false, false, false, false,
                                               totalBalance, gameBalance, 0, 0, [], NoRank, NoRank, []));
    }

    /** Undo: the fourteen fields take the memento's values; the memento is
        only read, so undoing twice is undoing once. */
    method Undo()
      modifies this
      ensures State() == old(memento.state)
      ensures memento.state == old(memento.state)
    {
      var m := memento.state;
      AssignSeat(m);
      AssignMoney(m);
      AssignCards(m);
    }

    /** Part of Undo: identity and the flags. */
    method AssignSeat(m: PlayerState)
      modifies this
      ensures State() == old(State()).(id := m.id, nickname := m.nickname, isReady := m.isReady,
                                       isDead := m.isDead, isLeft := m.isLeft)
    {
      id, nickname, isReady, isDead, isLeft := m.id, m.nickname, m.isReady, m.isDead, m.isLeft;
    }

    /** Part of Undo: the all-in flag and the four amounts. */
    method AssignMoney(m: PlayerState)
      modifies this
      ensures State() == old(State()).(isAllIn := m.isAllIn, totalBalance := m.totalBalance,
                                       gameBalance := m.gameBalance, totalBet := m.totalBet, currentBet := m.currentBet)
    {
      isAllIn, totalBalance, gameBalance, totalBet, currentBet := m.isAllIn, m.totalBalance, m.gameBalance, m.totalBet, m.currentBet;
    }

    /** Part of Undo and of ResetHand: the hand, its rank, its high card and
        the best cards. */
    method AssignCards(m: PlayerState)
      modifies this
      ensures State() == old(State()).(hands := m.hands, handsRank := m.handsRank,
                                       highCard := m.highCard, bestCards := m.bestCards)
    {
      hands, handsRank, highCard, bestCards := m.hands, m.handsRank, m.highCard, m.bestCards;
    }

    /** The body of the player loop of ClearPlayersCurrentBet. */
    method ClearCurrentBet()
      modifies this
      ensures State() == ClearedBet(old(State()))
    {
      currentBet := 0;
    }

    /** The body of the player loop of InitGame. */
    method ResetHand()
      modifies this
      ensures State() == NewHand(old(State()))
    {
      var s := NewHand(State());
      AssignMoney(s);
      isDead := false;
      AssignCards(s);
    }

    /** SetMemento: the memento takes the fourteen current values; the
        player itself is unchanged. */
    method SetMemento()
      modifies memento
      ensures memento.state == State()
    {
      memento.state := State();
    }
  }

  /** The states of a list of players, in order. */
  function States(ps: seq<Player>): (r: seq<PlayerState>)
    reads set p | p in ps
    ensures |r| == |ps| && forall i | 0 <= i < |ps| :: r[i] == ps[i].State()
  {
    seq(|ps|, i reads set p | p in ps requires 0 <= i < |ps| => ps[i].State())
  }

  /** The states the players' mementos hold, in order. */
  function Mementos(ps: seq<Player>): (r: seq<PlayerState>)
    reads set p | p in ps, set p | p in ps :: p.memento
    ensures |r| == |ps| && forall i | 0 <= i < |ps| :: r[i] == ps[i].memento.state
  {
    seq(|ps|, i reads (set p | p in ps), (set p | p in ps :: p.memento) requires 0 <= i < |ps| => ps[i].memento.state)
  }

  /** No player object appears twice. */
  predicate Distinct(ps: seq<Player>)
  {
    forall i, j | 0 <= i < |ps| && 0 <= j < |ps| && i != j :: ps[i] != ps[j]
  }

  /** No two players share a memento. */
  predicate SeparateMementos(ps: seq<Player>)
    reads set p | p in ps
  {
    forall i, j | 0 <= i < |ps| && 0 <= j < |ps| && i != j :: ps[i].memento != ps[j].memento
  }

  /** ---- Rollback, as a sequence of calls ---- */

  /** Whatever happens to a player's fields after SetMemento, Undo brings
      all fourteen back; undoing again changes nothing. */
  method RollbackRestores(p: Player, changed: PlayerState)
    modifies p, p.memento
    ensures p.State() == old(p.State())
    ensures p.memento.state == old(p.State())
  {
    p.SetMemento();
    p.id, p.nickname, p.isReady, p.isDead, p.isLeft, p.isAllIn := changed.id, changed.nickname,
      changed.isReady, changed.isDead, changed.isLeft, changed.isAllIn;
    p.totalBalance, p.gameBalance, p.totalBet, p.currentBet := changed.totalBalance,
      changed.gameBalance, changed.totalBet, changed.currentBet;
    p.hands, p.handsRank, p.highCard, p.bestCards := changed.hands, changed.handsRank,
      changed.highCard, changed.bestCards;
    p.Undo();
    p.Undo();
  }

  /** Undo before any SetMemento: the cards a new player was later dealt,
      and their rank, are lost, while the other ten fields return to New's. */
  method UndoBeforeSetMemento(id: int, nickname: string, total: u64, balance: u64, dealt: seq<Card>)
      returns (p: Player)
    ensures SameSeat(p.State(), PlayerState(id, nickname, false, false, false, false,
                                            total, balance, 0, 0, [], NoRank, NoRank, []))
    ensures NoCards(p.State())
  {
    p := new Player.New(id, nickname, total, balance);
    p.hands := dealt;
    p.handsRank := 3;
    p.Undo();
  }
}
