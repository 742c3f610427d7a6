/** Whose turn it is: getNextIdx, getReadyPlayerIdx, getPlayerIdx, the player
    filters and GetNextPlayerIdx.  The four engine generations
    (domain/entity/game.go, service/utils.go, service/game/utils.go and
    game/game.go) carry identical copies of this code; it is modelled once,
    on the players' states. */
module TurnOrder {
  import opened Players
  import opened GameError

  /** getNextIdx: the seat after `idx`, going round the table. */
  function NextIdx(n: nat, idx: nat): (r: nat)
    requires n > 0
    ensures r < n
    ensures idx + 1 < n ==> r == idx + 1
    ensures idx + 1 == n ==> r == 0
  {
    (idx + 1) % n
  }

  /** The seat `k` places after `idx`, going round a table of `n` seats:
      (idx + k) mod n for the k <= n the loops use. */
  function Around(idx: nat, k: nat, n: nat): (r: nat)
    requires idx < n && k <= n
    ensures r < n
  {
    if idx + k < n then idx + k else idx + k - n
  }

  /** The loop of getReadyPlayerIdx after `d` rounds: it looks at the seat
      `d` places after `idx` and stops there if that player is ready; after
      n rounds it is back at `idx`. */
  function ReadyScan(ps: seq<PlayerState>, idx: nat, d: nat): (r: nat)
    requires idx < |ps| && d <= |ps|
    ensures r < |ps|
    decreases |ps| - d
  {
    var seat := Around(idx, d, |ps|);
    if d == |ps| then seat
    else if ps[seat].isReady then seat
    else ReadyScan(ps, idx, d + 1)
  }

  /** getReadyPlayerIdx.  Go reads `players[idx]` before it ever wraps, so
      the index must be a seat. */
  function ReadyPlayerIdx(ps: seq<PlayerState>, idx: nat): (r: nat)
    requires idx < |ps|
    ensures r < |ps|
  {
    ReadyScan(ps, idx, 0)
  }

  /** Seat `j` comes at or after `a` and strictly before `b`, going round the table. */
  predicate Between(a: nat, b: nat, j: nat)
  {
    if a <= b then a <= j < b else a <= j || j < b
  }

  /** How many places round the table lead from `a` to `b`. */
  function Offset(a: nat, b: nat, n: nat): (k: nat)
    requires a < n && b < n
    ensures k < n && Around(a, k, n) == b
  {
    if a <= b then b - a else b + n - a
  }

  predicate NoneReady(ps: seq<PlayerState>)
  {
    forall j | 0 <= j < |ps| :: !ps[j].isReady
  }

  /** None of the first `d` seats from `idx` on is ready. */
  predicate NoneReadyFor(ps: seq<PlayerState>, idx: nat, d: nat)
    requires idx < |ps| && d <= |ps|
  {
    forall k | 0 <= k < d :: !ps[Around(idx, k, |ps|)].isReady
  }

  lemma {:induction false} ScanFinds(ps: seq<PlayerState>, idx: nat, d: nat)
    requires idx < |ps| && d <= |ps|
    requires NoneReadyFor(ps, idx, d)
    ensures var r := ReadyScan(ps, idx, d);
      && (ps[r].isReady ==> NoneReadyFor(ps, idx, Offset(idx, r, |ps|)))
      && (!ps[r].isReady ==> r == idx && NoneReadyFor(ps, idx, |ps|))
    decreases |ps| - d
  {
    var n := |ps|;
    var seat := Around(idx, d, n);
    if d == n {
      assert seat == idx;
      assert Around(idx, 0, n) == idx;
    } else if ps[seat].isReady {
      assert Offset(idx, seat, n) == d;
    } else {
      ScanFinds(ps, idx, d + 1);
    }
  }

  /** getReadyPlayerIdx finds the first ready seat at or after `idx`, going
      round the table; when nobody is ready it returns `idx` itself. */
  lemma ReadyPlayerIdxIsFirstReady(ps: seq<PlayerState>, idx: nat)
    requires idx < |ps|
    ensures var r := ReadyPlayerIdx(ps, idx);
      && (ps[r].isReady ==> forall j | 0 <= j < |ps| && Between(idx, r, j) :: !ps[j].isReady)
      && (!ps[r].isReady ==> r == idx && NoneReady(ps))
  {
    var n := |ps|;
    var r := ReadyPlayerIdx(ps, idx);
    ScanFinds(ps, idx, 0);
    forall j | 0 <= j < n && (!ps[r].isReady || Between(idx, r, j))
      ensures !ps[j].isReady
    {
      var k := Offset(idx, j, n);
      if ps[r].isReady {
        assert k < Offset(idx, r, n);
      }
      assert !ps[Around(idx, k, n)].isReady;
    }
  }

  /** getPlayerIdx from position `i` on. */
  function PlayerIdxFrom(ps: seq<PlayerState>, name: string, i: nat): (r: Outcome<nat>)
    requires i <= |ps|
    ensures r.Ok? ==> i <= r.value < |ps| && ps[r.value].nickname == name
                      && forall k | i <= k < r.value :: ps[k].nickname != name
    ensures !r.Ok? ==> r == Fail(NoPlayerExists) && forall k | i <= k < |ps| :: ps[k].nickname != name
    decreases |ps| - i
  {
    if i == |ps| then Fail(NoPlayerExists)
    else if ps[i].nickname == name then Ok(i)
    else PlayerIdxFrom(ps, name, i + 1)
  }

  /** getPlayerIdx (and FindPlayer / findPlayer, which return the player at
      that index): the first seat with the nickname, or NoPlayerExists when
      no seat has it. */
  function PlayerIdx(ps: seq<PlayerState>, name: string): (r: Outcome<nat>)
    ensures r.Ok? ==> r.value < |ps| && ps[r.value].nickname == name
                      && forall k | 0 <= k < r.value :: ps[k].nickname != name
    ensures !r.Ok? ==> r == Fail(NoPlayerExists) && forall k | 0 <= k < |ps| :: ps[k].nickname != name
  {
    PlayerIdxFrom(ps, name, 0)
  }

  /** Changing the first seat with a nickname, but not its nickname, keeps
      it the first seat with that nickname. */
  lemma PlayerIdxKeeps(t: seq<PlayerState>, name: string, i: nat, s: PlayerState)
    requires PlayerIdx(t, name) == Ok(i) && s.nickname == name
    ensures PlayerIdx(t[i := s], name) == Ok(i)
  {
    var t1 := t[i := s];
    assert t1[i].nickname == name;
    assert forall k | 0 <= k < i :: t1[k].nickname != name;
    assert PlayerIdx(t1, name).Ok?;
  }

  /** No two players at the table share a nickname, as AddPlayer keeps it. */
  predicate UniqueNames(t: seq<PlayerState>)
  {
    forall i, j | 0 <= i < j < |t| :: t[i].nickname != t[j].nickname
  }

  function IsReady(s: PlayerState): bool
  {
    s.isReady
  }

  /** The positions of the players `keep` selects, in table order: the
      filters getValidPlayers and getReadyPlayers, as positions. */
  function Select(ps: seq<PlayerState>, keep: PlayerState -> bool): (r: seq<nat>)
    ensures forall k | 0 <= k < |r| :: r[k] < |ps| && keep(ps[r[k]])
    ensures forall k, l | 0 <= k < l < |r| :: r[k] < r[l]
    ensures |r| <= |ps|
    decreases |ps|
  {
    if ps == [] then []
    else
      var init := Select(ps[..|ps| - 1], keep);
      if keep(ps[|ps| - 1]) then init + [|ps| - 1] else init
  }

  /** Selecting from a list one longer. */
  lemma SelectSnoc(t: seq<PlayerState>, x: PlayerState, keep: PlayerState -> bool)
    ensures Select(t + [x], keep) == Select(t, keep) + (if keep(x) then [|t|] else [])
  {
    assert (t + [x])[..|t|] == t;
  }

  /** Nothing the filter keeps is missed. */
  lemma {:induction false} SelectComplete(ps: seq<PlayerState>, keep: PlayerState -> bool, i: nat)
    requires i < |ps| && keep(ps[i])
    ensures i in Select(ps, keep)
    decreases |ps|
  {
    if i < |ps| - 1 {
      SelectComplete(ps[..|ps| - 1], keep, i);
    }
  }

  /** GetValidPlayers: the players still in the hand, in table order. */
  function ValidIndices(ps: seq<PlayerState>): seq<nat>
  {
    Select(ps, InHand)
  }

  /** GetReadyPlayers: the ready players, in table order. */
  function ReadyIndices(ps: seq<PlayerState>): seq<nat>
  {
    Select(ps, IsReady)
  }

  /** Every player in the hand is ready, so the valid players are a
      sub-list of the ready ones. */
  lemma ValidAreReady(ps: seq<PlayerState>)
    ensures forall k | 0 <= k < |ValidIndices(ps)| :: ValidIndices(ps)[k] in ReadyIndices(ps)
  {
    forall k | 0 <= k < |ValidIndices(ps)|
      ensures ValidIndices(ps)[k] in ReadyIndices(ps)
    {
      SelectComplete(ps, IsReady, ValidIndices(ps)[k]);
    }
  }

  /** ---- GetNextPlayerIdx ---- */

  /** getReadyPlayerIdx on `idx + 1`, which nobody reduces modulo the table
      size: Go reads `players[idx + 1]` first and panics once that is past
      the last seat (an empty table never enters the loop). */
  function ReadyFrom(ps: seq<PlayerState>, idx: nat): (r: Outcome<nat>)
    ensures r.Ok? && |ps| > 0 ==> r.value < |ps|
  {
    if |ps| == 0 then Ok(idx)
    else if idx < |ps| then Ok(ReadyPlayerIdx(ps, idx))
    else Panic
  }

  /** The loop of GetNextPlayerIdx with `steps` rounds left: move to the next
      ready seat, and stop there if that player is still in the hand. */
  function Walk(ps: seq<PlayerState>, idx: nat, steps: nat): (r: Outcome<nat>)
    ensures r.Ok? && r.value != idx ==> r.value < |ps|
    ensures !r.Fail?
    decreases steps
  {
    if steps == 0 || |ps| == 0 then Ok(idx)
    else match ReadyFrom(ps, idx + 1)
      case Ok(j) => if InHand(ps[j]) then Ok(j) else Walk(ps, j, steps - 1)
      case _ => Panic
  }

  /** GetNextPlayerIdx (getNextPlayerIdx in the service and legacy versions):
      walk at most once round the table; ending where the walk started means
      nobody is left to play. */
  function NextPlayerIdx(ps: seq<PlayerState>, current: nat): (r: Outcome<nat>)
    ensures r.Ok? ==> r.value < |ps| && r.value != current
    ensures r.Fail? ==> r.error == NoPlayersLeft
    ensures |ps| == 0 ==> r == Fail(NoPlayersLeft)
  {
    match Walk(ps, current, |ps|)
    case Ok(i) => if i == current then Fail(NoPlayersLeft) else Ok(i)
    case _ => Panic
  }

  lemma {:induction false} WalkLands(ps: seq<PlayerState>, idx: nat, steps: nat)
    ensures var r := Walk(ps, idx, steps);
      r.Ok? ==> r.value == idx || (r.value < |ps| && (ps[r.value].isReady || NoneReady(ps)))
    decreases steps
  {
    if steps > 0 && |ps| > 0 && idx + 1 < |ps| {
      var j := ReadyPlayerIdx(ps, idx + 1);
      ReadyPlayerIdxIsFirstReady(ps, idx + 1);
      if !InHand(ps[j]) {
        WalkLands(ps, j, steps - 1);
      }
    }
  }

  /** With nobody ready the walk moves one seat at a time and runs off the
      end of the table. */
  lemma {:induction false} IdleWalkPanics(ps: seq<PlayerState>, idx: nat, steps: nat)
    requires NoneReady(ps) && idx < |ps| && steps >= |ps| - idx
    ensures Walk(ps, idx, steps) == Panic
    decreases steps
  {
    if idx + 1 < |ps| {
      ReadyPlayerIdxIsFirstReady(ps, idx + 1);
      IdleWalkPanics(ps, idx + 1, steps - 1);
    }
  }

  /** What GetNextPlayerIdx does promise: a seat of the table, not the
      current one, and a ready player. */
  lemma NextPlayerIdxSound(ps: seq<PlayerState>, current: nat)
    ensures var r := NextPlayerIdx(ps, current);
      r.Ok? ==> r.value < |ps| && r.value != current && ps[r.value].isReady
  {
    WalkLands(ps, current, |ps|);
    if NoneReady(ps) && current < |ps| {
      IdleWalkPanics(ps, current, |ps|);
    }
  }

  /** The usual case: when the first ready seat after the current one holds
      a player still in the hand, that player is next. */
  lemma NextPlayerIsFirstInHand(ps: seq<PlayerState>, current: nat)
    requires current + 1 < |ps|
    requires InHand(ps[ReadyPlayerIdx(ps, current + 1)])
    requires ReadyPlayerIdx(ps, current + 1) != current
    ensures NextPlayerIdx(ps, current) == Ok(ReadyPlayerIdx(ps, current + 1))
  {
  }

  /** The walk never reduces `idx + 1` modulo the table size, so asking from
      the last seat (or from past it) panics. */
  lemma LastSeatPanics(ps: seq<PlayerState>, current: nat)
    requires 0 < |ps| <= current + 1
    ensures NextPlayerIdx(ps, current) == Panic
  {
  }

  /** ---- Concrete tables ---- */

  function Seat(name: string, ready: bool, dead: bool, left: bool): PlayerState
  {
    PlayerState(0, name, ready, dead, left, false, 0, 0, 0, 0, [], 0, 0, [])
  }

  /** A folds at seat 0 while B at seat 1 has already folded and C at seat 2
      never got ready: GetNextPlayerIdx hands the turn to the folded B. */
  lemma FoldedPlayerChosen()
    ensures var ps := [Seat("A", true, true, false), Seat("B", true, true, false), Seat("C", false, false, false)];
      NextPlayerIdx(ps, 0) == Ok(1) && !InHand(ps[1])
  {
    var ps := [Seat("A", true, true, false), Seat("B", true, true, false), Seat("C", false, false, false)];
    assert ReadyPlayerIdx(ps, 1) == 1;
    assert ReadyPlayerIdx(ps, 2) == 0;
    assert Walk(ps, 1, 0) == Ok(1);
    assert Walk(ps, 0, 1) == Ok(1);
    assert Walk(ps, 1, 2) == Ok(1);
  }

  /** The table of game/game_test.go's NoPlayersLeft case (all ready, every
      seat dead or gone, turn at seat 0): the walk runs past the last seat
      and panics instead of reporting NoPlayersLeft. */
  lemma EveryoneOutPanics()
    ensures NextPlayerIdx([Seat("kim", true, true, false), Seat("park", true, true, false),
                           Seat("han", true, true, false), Seat("lee", true, false, true),
                           Seat("choi", true, true, false)], 0) == Panic
  {
    var ps := [Seat("kim", true, true, false), Seat("park", true, true, false),
               Seat("han", true, true, false), Seat("lee", true, false, true),
               Seat("choi", true, true, false)];
    assert ReadyPlayerIdx(ps, 1) == 1;
    assert ReadyPlayerIdx(ps, 2) == 2;
    assert ReadyPlayerIdx(ps, 3) == 3;
    assert ReadyPlayerIdx(ps, 4) == 4;
    assert Walk(ps, 4, 1) == Panic;
    assert Walk(ps, 3, 2) == Panic;
    assert Walk(ps, 2, 3) == Panic;
    assert Walk(ps, 1, 4) == Panic;
  }

  /** NoPlayersLeft is reported when the walk wraps round to the current
      seat: B at seat 0 has folded, A at seat 1 is to play and C at seat 2 is
      not ready. */
  lemma NobodyElseLeft()
    ensures NextPlayerIdx([Seat("B", true, true, false), Seat("A", true, false, false),
                           Seat("C", false, false, false)], 1) == Fail(NoPlayersLeft)
  {
    var ps := [Seat("B", true, true, false), Seat("A", true, false, false), Seat("C", false, false, false)];
    assert ReadyPlayerIdx(ps, 2) == 0;
    assert ReadyPlayerIdx(ps, 1) == 1;
    assert Walk(ps, 0, 2) == Ok(1);
    assert Walk(ps, 1, 3) == Ok(1);
  }
}
