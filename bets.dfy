/** Classifying a bet: getBetType (service/utils.go, service/game/utils.go),
    which never refuses one, and isValidBet (game/game.go), which does.
    Every sum is Go's wrapping uint64 addition. */
module Bets {
  import opened Uint64
  import opened GameError
  import opened Players

  datatype BetType = Check | Raise | AllIn

  /** getBetType: all-in when the bet uses up the whole game balance; a raise
      when the player's running bet for the street would pass the table's;
      a check otherwise, however short of the table's bet it falls. */
  function GetBetType(p: PlayerState, amount: u64, tableBet: u64): (t: BetType)
    ensures t == AllIn <==> p.gameBalance == Add(p.totalBet, amount)
    ensures t == Raise <==> p.gameBalance != Add(p.totalBet, amount) && tableBet < Add(p.currentBet, amount)
    ensures t == Check <==> p.gameBalance != Add(p.totalBet, amount) && Add(p.currentBet, amount) <= tableBet
  {
    if p.gameBalance == Add(p.totalBet, amount) then AllIn
    else if tableBet < Add(p.currentBet, amount) then Raise
    else Check
  }

  /** isValidBet: the same classification, except that a bet beyond the game
      balance is OverBalance and one that does not reach the table's bet is
      LowBetting. */
  function IsValidBet(p: PlayerState, amount: u64, tableBet: u64): Outcome<BetType>
  {
    if p.gameBalance == Add(p.totalBet, amount) then Ok(AllIn)
    else if p.gameBalance < Add(p.totalBet, amount) then Fail(OverBalance)
    else if tableBet > Add(p.currentBet, amount) then Fail(LowBetting)
    else if tableBet < Add(p.currentBet, amount) then Ok(Raise)
    else Ok(Check)
  }

  /** The two versions agree on every bet the legacy one accepts, and the
      legacy one refuses exactly the over-balance and the under-called bets
      that are not all-in. */
  lemma ValidBetAgrees(p: PlayerState, amount: u64, tableBet: u64)
    ensures var r := IsValidBet(p, amount, tableBet);
      && (r.Ok? ==> r.value == GetBetType(p, amount, tableBet))
      && (r == Fail(OverBalance) <==>
            GetBetType(p, amount, tableBet) != AllIn && p.gameBalance < Add(p.totalBet, amount))
      && (r == Fail(LowBetting) <==>
            GetBetType(p, amount, tableBet) == Check && p.gameBalance > Add(p.totalBet, amount)
            && tableBet > Add(p.currentBet, amount))
      && r != Panic
  {
  }

  function Fresh(totalBalance: u64, gameBalance: u64): PlayerState
  {
    PlayerState(0, "kim", false, false, false, false, totalBalance, gameBalance, 0, 0, [], 0, 0, [])
  }

  /** The cases of TestGame_isValidBet (game/game_test.go): a player with a
      game balance of 200 facing a table bet of 20. */
  lemma IsValidBetExamples()
    ensures IsValidBet(Fresh(300, 200), 20, 20) == Ok(Check)
    ensures IsValidBet(Fresh(300, 200), 30, 20) == Ok(Raise)
    ensures IsValidBet(Fresh(300, 200).(totalBet := 30), 170, 20) == Ok(AllIn)
    ensures IsValidBet(Fresh(300, 200), 250, 20) == Fail(OverBalance)
    ensures IsValidBet(Fresh(300, 200), 10, 20) == Fail(LowBetting)
  {
  }

  /** getBetType calls the same under-call a check. */
  lemma UnderCallIsCheck()
    ensures GetBetType(Fresh(300, 200), 10, 20) == Check
  {
  }

  /** The sums wrap: a bet of 2^64 - 20 on top of 30 already bet reads as a
      total of 10, so neither version sees it as over the balance, and it
      passes as a raise. */
  lemma HugeBetWrapsToRaise()
    ensures var p := Fresh(300, 200).(totalBet := 30, currentBet := 30);
      IsValidBet(p, Modulus - 20, 0) == Ok(Raise) && GetBetType(p, Modulus - 20, 0) == Raise
  {
  }
}
