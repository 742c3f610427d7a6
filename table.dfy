/** What the Game entity does to its table, as functions of the players'
    states: seat assignment (setPlayers), removing the players who left
    (removeLeftPlayers, removePlayerByIndex), dealing (GiveCardsToPlayers)
    and the resets of ClearPlayersCurrentBet and InitGame.  The same code
    appears in domain/entity/game.go, service/game/utils.go and game/game.go. */
module Table {
  import opened GameError
  import opened Cards
  import opened Players
  import opened TurnOrder

  datatype Status = FreeFlop | Flop | Turn | River | GameEnd

  /** ---- setPlayers ---- */

  datatype Seats = Seats(sb: nat, bb: nat, first: nat)

  /** The nicknames of the ready players, in table order. */
  function ReadyNames(t: seq<PlayerState>): (r: seq<string>)
    ensures |r| <= |t|
    ensures forall n | n in r :: exists j | 0 <= j < |t| :: t[j].isReady && t[j].nickname == n
    decreases |t|
  {
    if t == [] then []
    else ReadyNames(t[..|t| - 1]) + (if t[|t| - 1].isReady then [t[|t| - 1].nickname] else [])
  }

  lemma {:induction false} ReadyNamesCount(t: seq<PlayerState>)
    ensures |ReadyNames(t)| == |ReadyIndices(t)|
    decreases |t|
  {
    if t != [] {
      ReadyNamesCount(t[..|t| - 1]);
    }
  }

  /** The ready seat after `i`, or a panic when Go reads past the last seat. */
  function After(t: seq<PlayerState>, i: nat): Outcome<nat>
  {
    ReadyFrom(t, i + 1)
  }

  /** Small blind, big blind and first player from the given small blind,
      each the next ready seat after the one before. */
  function Rotate(t: seq<PlayerState>, s: nat): Outcome<Seats>
    requires |t| > 0
  {
    match After(t, s)
    case Ok(b) => (match After(t, b)
                   case Ok(f) => Ok(Seats(s, b, f))
                   case _ => Panic)
    case _ => Panic
  }

  /** setPlayers: at least two players and at least two of them ready; then,
      for the first hand (both blinds still 0), the first ready seat is the
      small blind, and with two players the seats are 0 and 1 and the small
      blind acts first; for later hands the small blind moves to the next
      ready seat, and with two players the blinds swap. */
  function AssignSeats(t: seq<PlayerState>, sb: nat, bb: nat): (r: Outcome<Seats>)
    ensures r == Fail(LackOfPlayers) <==> |t| < 2
    ensures r == Fail(NotEnoughPlayersReady) <==> |t| >= 2 && |ReadyIndices(t)| < 2
  {
    if |t| < 2 then Fail(LackOfPlayers)
    else if |ReadyIndices(t)| < 2 then Fail(NotEnoughPlayersReady)
    else if sb == 0 && bb == 0 then
      if |t| > 2 then Rotate(t, ReadyPlayerIdx(t, 0)) else Ok(Seats(0, 1, 0))
    else if |t| > 2 then
      (match After(t, sb)
       case Ok(s) => Rotate(t, s)
       case _ => Panic)
    else Ok(Seats(bb, sb, bb))
  }

  /** Two ready players in the table mean the first ready seat from anywhere is ready. */
  lemma SomeoneReady(t: seq<PlayerState>, i: nat)
    requires i < |t| && |ReadyIndices(t)| >= 1
    ensures t[ReadyPlayerIdx(t, i)].isReady
  {
    ReadyPlayerIdxIsFirstReady(t, i);
    var k := ReadyIndices(t)[0];
    assert t[k].isReady;
  }

  /** With more than two players every seat setPlayers picks is a ready seat
      of the table. */
  lemma AssignedSeatsAreReady(t: seq<PlayerState>, sb: nat, bb: nat)
    requires |t| > 2
    ensures var r := AssignSeats(t, sb, bb);
      r.Ok? ==> && r.value.sb < |t| && r.value.bb < |t| && r.value.first < |t|
                && t[r.value.sb].isReady && t[r.value.bb].isReady && t[r.value.first].isReady
  {
    var r := AssignSeats(t, sb, bb);
    if r.Ok? {
      var s := if sb == 0 && bb == 0 then ReadyPlayerIdx(t, 0) else After(t, sb).value;
      SomeoneReady(t, if sb == 0 && bb == 0 then 0 else sb + 1);
      SomeoneReady(t, s + 1);
      var b := After(t, s).value;
      SomeoneReady(t, b + 1);
    }
  }

  /** Heads-up: the first hand seats the small blind at 0, the big blind at 1
      and lets the small blind act first; every later hand swaps the blinds. */
  lemma HeadsUpSeats(t: seq<PlayerState>, sb: nat, bb: nat)
    requires |t| == 2 && t[0].isReady && t[1].isReady
    ensures sb == 0 && bb == 0 ==> AssignSeats(t, sb, bb) == Ok(Seats(0, 1, 0))
    ensures !(sb == 0 && bb == 0) ==> AssignSeats(t, sb, bb) == Ok(Seats(bb, sb, bb))
  {
    SelectComplete(t, IsReady, 0);
    SelectComplete(t, IsReady, 1);
    assert ReadyIndices(t)[0] != ReadyIndices(t)[1] || |ReadyIndices(t)| >= 2;
  }

  function Ready(name: string): PlayerState
  {
    PlayerState(0, name, true, false, false, false, 0, 0, 0, 0, [], NoRank, NoRank, [])
  }

  /** Three ready players: the first hand seats them 0, 1, 2; at the second
      hand the big blind lands on the last seat and looking for the first
      player after it reads past the end of the table. */
  lemma ThreeHandedSecondHandPanics()
    ensures AssignSeats([Ready("a"), Ready("b"), Ready("c")], 0, 0) == Ok(Seats(0, 1, 2))
    ensures AssignSeats([Ready("a"), Ready("b"), Ready("c")], 0, 1) == Panic
  {
    var t := [Ready("a"), Ready("b"), Ready("c")];
    SelectComplete(t, IsReady, 0);
    SelectComplete(t, IsReady, 1);
    assert |ReadyIndices(t)| >= 2;
    assert ReadyPlayerIdx(t, 0) == 0;
    assert ReadyPlayerIdx(t, 1) == 1;
    assert ReadyPlayerIdx(t, 2) == 2;
  }

  /** ---- removeLeftPlayers ---- */

  function IsLeft(s: PlayerState): bool
  {
    s.isLeft
  }

  /** When seat `s` is the only one kept, the selection is just `s`. */
  lemma {:induction false} SelectOnly(t: seq<PlayerState>, keep: PlayerState -> bool, s: nat)
    requires forall i | 0 <= i < |t| && i != s :: !keep(t[i])
    requires s < |t| ==> keep(t[s])
    ensures Select(t, keep) == if s < |t| then [s] else []
    decreases |t|
  {
    if t != [] {
      SelectOnly(t[..|t| - 1], keep, s);
    }
  }

  /** The seats of the players who left, in table order. */
  function LeftSeats(t: seq<PlayerState>): (r: seq<nat>)
    ensures forall k | 0 <= k < |r| :: r[k] < |t| && t[r[k]].isLeft
    ensures forall j | 0 <= j < |t| && t[j].isLeft :: j in r
  {
    forall j | 0 <= j < |t| && t[j].isLeft
      ensures j in Select(t, IsLeft)
    {
      SelectComplete(t, IsLeft, j);
    }
    Select(t, IsLeft)
  }

  /** The first loop of removeLeftPlayers, from seat `i` on, for one blind:
      a blind on a seat that was left moves to the next seat. */
  function MoveBlind(t: seq<PlayerState>, b: nat, i: nat): (r: nat)
    requires i <= |t|
    ensures r == b || r < |t|
    decreases |t| - i
  {
    if i == |t| then b
    else MoveBlind(t, if t[i].isLeft && b == i then NextIdx(|t|, i) else b, i + 1)
  }

  /** The first seat at or after `b` whose player stayed, or seat 0 when
      everyone from `b` to the end left. */
  function FirstStaying(t: seq<PlayerState>, b: nat): (r: nat)
    requires b <= |t|
    ensures (forall k | b <= k < |t| :: t[k].isLeft) ==> r == 0
    ensures b <= r < |t| ==> forall k | b <= k < r :: t[k].isLeft
    decreases |t| - b
  {
    if b == |t| then 0
    else if !t[b].isLeft then b
    else FirstStaying(t, b + 1)
  }

  lemma {:induction false} MoveBlindPast(t: seq<PlayerState>, b: nat, i: nat)
    requires b < i <= |t|
    ensures MoveBlind(t, b, i) == b
    decreases |t| - i
  {
    if i < |t| {
      MoveBlindPast(t, b, i + 1);
    }
  }

  lemma {:induction false} MoveBlindFrom(t: seq<PlayerState>, b: nat, i: nat)
    requires i <= b < |t|
    ensures MoveBlind(t, b, i) == FirstStaying(t, b)
    decreases |t| - i
  {
    if i < b {
      MoveBlindFrom(t, b, i + 1);
    } else if !t[b].isLeft {
      MoveBlindPast(t, b, b + 1);
    } else if b + 1 < |t| {
      MoveBlindFrom(t, b + 1, b + 1);
    }
  }

  /** removeLeftPlayers moves a blind off the seats that were left, onward
      to the first seat that stayed (wrapping to seat 0 only past the end). */
  lemma MoveBlindIsFirstStaying(t: seq<PlayerState>, b: nat)
    requires b < |t|
    ensures MoveBlind(t, b, 0) == FirstStaying(t, b)
    ensures var r := FirstStaying(t, b); r == 0 || (b <= r < |t| && !t[r].isLeft)
  {
    MoveBlindFrom(t, b, 0);
    FirstStayingSpec(t, b);
  }

  lemma {:induction false} FirstStayingSpec(t: seq<PlayerState>, b: nat)
    requires b <= |t|
    ensures var r := FirstStaying(t, b); r == 0 || (b <= r < |t| && !t[r].isLeft)
    decreases |t| - b
  {
    if b < |t| && t[b].isLeft {
      FirstStayingSpec(t, b + 1);
    }
  }

  /** removePlayerByIndex: `append(players[:s], players[s+1:]...)`, which
      panics when `s + 1` is past the end. */
  function RemoveAt<T>(s: seq<T>, i: nat): (r: Outcome<seq<T>>)
    ensures r.Ok? <==> i < |s|
    ensures !r.Fail?
    ensures r.Ok? ==> |r.value| == |s| - 1 && forall k | 0 <= k < |s| - 1 :: r.value[k] == s[if k < i then k else k + 1]
  {
    if i < |s| then Ok(s[..i] + s[i + 1..]) else Panic
  }

  /** The second loop of removeLeftPlayers: remove at each recorded seat in
      turn, on the list as the earlier removals left it. */
  function RemoveAll<T>(s: seq<T>, seats: seq<nat>): (r: Outcome<seq<T>>)
    ensures r.Ok? ==> |r.value| == |s| - |seats|
    ensures !r.Fail?
    decreases |seats|
  {
    if seats == [] then Ok(s)
    else match RemoveAt(s, seats[0])
      case Ok(s') => RemoveAll(s', seats[1..])
      case _ => Panic
  }

  /** Removing only ever drops elements. */
  lemma {:induction false} RemoveAllKeeps<T>(s: seq<T>, seats: seq<nat>)
    ensures RemoveAll(s, seats).Ok? ==> forall x | x in RemoveAll(s, seats).value :: x in s
    decreases |seats|
  {
    if seats != [] && seats[0] < |s| {
      var rest := s[..seats[0]] + s[seats[0] + 1..];
      RemoveAllKeeps(rest, seats[1..]);
      forall x | x in rest
        ensures x in s
      {
      }
    }
  }

  /** removeLeftPlayers on the players' states: the new blinds and the new list. */
  function RemoveLeft(t: seq<PlayerState>, sb: nat, bb: nat): (r: Outcome<(seq<PlayerState>, nat, nat)>)
    ensures r.Ok? ==> |r.value.0| == |t| - |LeftSeats(t)| && forall x | x in r.value.0 :: x in t
    ensures r.Ok? && sb < |t| ==> r.value.1 == FirstStaying(t, sb)
    ensures r.Ok? && bb < |t| ==> r.value.2 == FirstStaying(t, bb)
    ensures !r.Fail?
  {
    RemoveAllKeeps(t, LeftSeats(t));
    assert forall b: nat | b < |t| :: MoveBlind(t, b, 0) == FirstStaying(t, b) by {
      forall b: nat | b < |t|
        ensures MoveBlind(t, b, 0) == FirstStaying(t, b)
      {
        MoveBlindIsFirstStaying(t, b);
      }
    }
    match RemoveAll(t, LeftSeats(t))
    case Ok(rest) => Ok((rest, MoveBlind(t, sb, 0), MoveBlind(t, bb, 0)))
    case _ => Panic
  }

  /** With a single player gone, exactly that player is removed and everyone
      else keeps their order. */
  lemma OneLeftRemoved(t: seq<PlayerState>, s: nat)
    requires s < |t| && t[s].isLeft
    requires forall i | 0 <= i < |t| && i != s :: !t[i].isLeft
    ensures RemoveAll(t, LeftSeats(t)) == Ok(t[..s] + t[s + 1..])
  {
    SelectOnly(t, IsLeft, s);
  }

  function Gone(name: string): PlayerState
  {
    Ready(name).(isLeft := true)
  }

  /** The seats recorded for [gone, gone, ready]. */
  lemma FirstTwoLeft()
    ensures LeftSeats([Gone("a"), Gone("b"), Ready("c")]) == [0, 1]
  {
    var a, b, c := Gone("a"), Gone("b"), Ready("c");
    assert Select([a], IsLeft) == [0] by {
      SelectSnoc([], a, IsLeft);
      assert [] + [a] == [a];
    }
    assert Select([a, b], IsLeft) == [0, 1] by {
      SelectSnoc([a], b, IsLeft);
      assert [a] + [b] == [a, b];
    }
    assert Select([a, b, c], IsLeft) == [0, 1] by {
      SelectSnoc([a, b], c, IsLeft);
      assert [a, b] + [c] == [a, b, c];
    }
  }

  /** Seats 0 and 1 both left: removing seat 0 shifts the list, so the
      recorded seat 1 now holds the player who stayed. */
  lemma StaleSeatRemovesWrongPlayer()
    ensures RemoveAll([Gone("a"), Gone("b"), Ready("c")], LeftSeats([Gone("a"), Gone("b"), Ready("c")]))
            == Ok([Gone("b")])
  {
    var t := [Gone("a"), Gone("b"), Ready("c")];
    var u := [Gone("b"), Ready("c")];
    FirstTwoLeft();
    assert RemoveAt(t, 0) == Ok(u) by {
      assert t[..0] + t[1..] == u;
    }
    assert RemoveAll(t, [0, 1]) == RemoveAll(u, [1]) by {
      assert [0, 1][1..] == [1];
    }
    assert RemoveAt(u, 1) == Ok([Gone("b")]) by {
      assert u[..1] + u[2..] == [Gone("b")];
    }
    assert RemoveAll(u, [1]) == RemoveAll([Gone("b")], []) by {
      assert [1][1..] == [];
    }
  }

  /** The seats recorded for [ready, gone, gone]. */
  lemma LastTwoLeft()
    ensures LeftSeats([Ready("a"), Gone("b"), Gone("c")]) == [1, 2]
  {
    var a, b, c := Ready("a"), Gone("b"), Gone("c");
    assert Select([a], IsLeft) == [] by {
      SelectSnoc([], a, IsLeft);
      assert [] + [a] == [a];
    }
    assert Select([a, b], IsLeft) == [1] by {
      SelectSnoc([a], b, IsLeft);
      assert [a] + [b] == [a, b];
    }
    assert Select([a, b, c], IsLeft) == [1, 2] by {
      SelectSnoc([a, b], c, IsLeft);
      assert [a, b] + [c] == [a, b, c];
    }
  }

  /** Seats 1 and 2 of three both left: after the first removal the list has
      two players and removing seat 2 panics. */
  lemma StaleSeatPanics()
    ensures RemoveAll([Ready("a"), Gone("b"), Gone("c")], LeftSeats([Ready("a"), Gone("b"), Gone("c")]))
            == Panic
  {
    var t := [Ready("a"), Gone("b"), Gone("c")];
    var u := [Ready("a"), Gone("c")];
    LastTwoLeft();
    assert RemoveAt(t, 1) == Ok(u) by {
      assert t[..1] + t[2..] == u;
    }
    assert RemoveAll(t, [1, 2]) == RemoveAll(u, [2]) by {
      assert [1, 2][1..] == [2];
    }
    assert RemoveAt(u, 2) == Panic;
  }

  /** ---- GiveCardsToPlayers ---- */

  /** Players[i] for i < k each get the next two cards from the end of the
      deck: the last card first, then the one before it. */
  function Dealt(t: seq<PlayerState>, deck: seq<Card>, k: nat): (r: seq<PlayerState>)
    requires k <= |t| && 2 * k <= |deck|
    ensures |r| == |t|
  {
    seq(|t|, i requires 0 <= i < |t| =>
      if i < k then t[i].(hands := t[i].hands + [deck[|deck| - 1 - 2 * i], deck[|deck| - 2 - 2 * i]])
      else t[i])
  }

  /** Dealing to one more seat changes only that seat. */
  lemma DealtStep(t: seq<PlayerState>, deck: seq<Card>, i: nat)
    requires i < |t| && 2 * i + 2 <= |deck|
    ensures Dealt(t, deck, i + 1)
            == Dealt(t, deck, i)[i := t[i].(hands := t[i].hands + [deck[|deck| - 1 - 2 * i], deck[|deck| - 2 - 2 * i]])]
  {
  }

  /** GiveCardsToPlayers counts the players in the hand but deals to the
      first seats of the table: with seat 0 folded and seat 1 in the hand,
      seat 0 gets the cards and seat 1 none. */
  lemma DealsBySeatNotByPlayer(deck: seq<Card>)
    requires |deck| >= 2
    ensures var t := [Ready("a").(isDead := true), Ready("b")];
      |ValidIndices(t)| == 1
      && Dealt(t, deck, 1)[0].hands == [deck[|deck| - 1], deck[|deck| - 2]]
      && Dealt(t, deck, 1)[1].hands == []
  {
    var t := [Ready("a").(isDead := true), Ready("b")];
    SelectSnoc([], t[0], InHand);
    SelectSnoc([t[0]], t[1], InHand);
    assert [] + [t[0]] == [t[0]];
    assert [t[0]] + [t[1]] == t;
    assert ValidIndices(t) == [1];
  }

  function MapStates(f: PlayerState -> PlayerState, t: seq<PlayerState>): (r: seq<PlayerState>)
    ensures |r| == |t| && forall i | 0 <= i < |t| :: r[i] == f(t[i])
  {
    seq(|t|, i requires 0 <= i < |t| => f(t[i]))
  }
}
