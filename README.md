# go-holdem in Dafny

A model of the poker engine of go-holdem, a Texas Hold'em server written in Go,
with proofs about it. The model covers the in-memory game logic. The Redis,
Postgres, HTTP and WebSocket layers around it are not modelled.

- **Hand evaluator** (`card/`).
  - The deck (`Deck.Deck`: NewDeck, shuffle, GetCard).
  - The card sort (`Cards.SortCards`). It is modelled as the insertion sort
    that `sort.Slice` runs on slices of at most 12 elements from Go 1.19 on
    (`Sorting`). The source pins no Go version; the model assumes 1.19 or
    later.
  - The building of the 21 five-card subsets of seven cards and the
    category tests (`HandsRank`).
  - The walk that keeps the best subset (`HandsRank.GetBestHandsRank`).
- **Showdown.**
  - `compare` as a lexicographic order (`Showdown`).
  - `GetWinners` of `player/player.go` as a fold (`Showdown.GetWinners`).
  - `GetWinnersAndLosers` in its entity, service and `game/game.go` forms
    (`Winners`, `Games.Game.GetWinnersAndLosers`).
- **Players and the game.**
  - `Player` and `Game` are classes whose methods update their fields in
    place: New, Undo, SetMemento, InitGame, setPlayers, removeLeftPlayers,
    GiveCardsToPlayers and ClearPlayersCurrentBet (`Players`, `Games`).
  - Each class has its memento, and the proofs follow the aliasing between a
    player and its memento.
  - `Games.Game.Fields` and `Players.States` read the fields out as values.
    The contracts compare those values with specification functions.
- **Turn order.**
  - `getNextIdx`, `getReadyPlayerIdx`, `getPlayerIdx` and `GetNextPlayerIdx`
    (`TurnOrder`).
  - The seat assignment of setPlayers (`Table`).
- **Bets.**
  - `getBetType` and `isValidBet` (`Bets`).
  - `handleBet` (`Betting`, with the facts about it in `BettingFacts`).
  - `Bet`: the street progression, the payout of `distributeMoneyToWinners`,
    the balance batch of `updatePlayersBalance` and the reset of the table
    (`Payout`, `Ledger`, `Service`).
- **Before and between hands** (`Admission`): `HandleReady`, and `Start` and
  `AddPlayer` of `game/game.go`.
- **Rooms**: `GameRoom` of `gameroom/gameroom.go` (`Rooms`).

The engine exists in three generations that differ in small ways. The
operations that differ take a `Winners.Version` parameter:

- `Entity`: `domain/entity` driven by `service/gameservice.go`.
- `ServiceGame`: `service/game/gameservice.go` with `service/game/utils.go`.
- `Legacy`: `game/game.go`.

Conventions of the model:

- **Panics.** A Go panic (an index out of range, a division by zero, a nil
  dereference) is the `Panic` case of `GameError.Outcome`. It is not ruled
  out by a precondition, so the model shows which inputs crash the server.
- **Errors.** An error return is `Fail(e)`.
- **The stores.** Each call to a store (`saveGame`, `setRedis`,
  `UpdateMultipleBalance`) is a boolean parameter saying whether it
  succeeded.
- **Arithmetic.** Bets and balances are `uint64` in Go. Updates to them wrap
  explicitly modulo 2^64 (`Uint64.Add`, `Uint64.Sub`). `int(...)` conversions
  and Go's truncating `/` are written out (`Int64.Wrap`, `Int64.Quot`).
- **Shuffling.** A shuffle is a sequence of swap picks (`Deck.ShufflePicks`).

## Defects the model reproduces

Where the source does something it evidently did not mean, the model does
what the code does. A lemma shows the behaviour on a concrete input, and the
contracts state what still holds.

- **Kicker tie-break** (card/hands_rank.go:60-68). The kicker loop replaces
  the best hand at the first position from the top where the current best is
  lower, even after a higher position where the best was higher.
  - `HandsRankExamples.KickerReplacesStronger`: a pair of sixes with an Ace
    kicker is replaced by one with a King kicker.
  - Only the category and high card of the result are proved maximal over
    every five-card subset (`HandsRank.BestHandsRankIsMaximal`,
    `HandsRank.EverySubsetConsidered`).
- **Two pair** (card/hands_rank.go:303-317). `isTwoPair` misses the shape
  X X Y Z Z, so 2 2 5 9 9 is a pair of twos (`HandsRankExamples.TwoPairMissed`).
- **The raise test** (service/gameservice.go:252, game/game.go:312). It
  compares the amount of this bet, not the bettor's running bet, with the
  table's bet (`Betting.AfterStakeSpec`, `BettingFacts.RaiseLeads`).
  - A huge bet wraps round 2^64 and passes as a raise
    (`Bets.HugeBetWrapsToRaise`).
  - A raise is never saved (`BettingFacts.RaiseUnsaved`).
- **The game's total bet** (service/gameservice.go:235-236). No bet ever
  adds to it (`BettingFacts.GameTotalBetNeverGrows`). The sole-winner payout
  `TotalBet - winner.TotalBet` therefore wraps. With nothing in the pot, the
  winner pays its own bet (`Payout.SoleWinnerPaysOwnBet`).
- **A fold does not pass the turn** (service/gameservice.go:220-228). The
  current seat stays on the folded player (`BettingFacts.FoldKeepsTurn`).
- **The last seat** (domain/entity/game.go:352-353, service/gameservice.go:259).
  `getReadyPlayerIdx(players, idx+1)` is called without wrapping, so from the
  last seat it reads past the end and panics. See:
  - `TurnOrder.LastSeatPanics`;
  - `BettingFacts.LastSeatBetPanics`;
  - `Table.ThreeHandedSecondHandPanics`: the second hand with three players;
  - `TurnOrder.EveryoneOutPanics`: the NoPlayersLeft case of game/game_test.go
    panics instead.
- **A folded player can be next** (domain/entity/game.go:349-366). The walk
  of `GetNextPlayerIdx` stops at the first ready seat and only then tests
  whether it folded (`TurnOrder.FoldedPlayerChosen`).
- **Dealing** (domain/entity/game.go:138-141). It counts the players in the
  hand but deals to the first seats (`Table.DealsBySeatNotByPlayer`).
- **Removing the players who left** (domain/entity/game.go:323-325). It
  removes by indices that the first removal has made stale:
  - `Table.StaleSeatRemovesWrongPlayer`: the wrong player is removed;
  - `Table.StaleSeatPanics`: the index runs past the end.
- **Side pots** (service/gameservice.go:304-326).
  - The loop debits `winners[i]` where `winners[j]` was meant.
  - Resetting the waiting list drops the current winner.
  - `Payout.WrongWinnerDebited`: winners on 10, 20, 20 and a loser on 20.
    One winner is debited twice and then left out.
  - `Payout.DividesByZero`: winners on 10, 20, 30 divide by an empty list.
- **The deck in a memento** (domain/entity/game.go:470, game/game.go:849).
  A memento holds the reference to the deck, so a rollback does not give back the
  cards drawn since. `Service.Bet` states which deck it may leave, and
  `Admission.FailedStartSaveKeepsCards` shows a failed start keeping the
  dealt cards.
- **Undo before SetMemento** (domain/entity/player.go:99-112). The first
  memento holds no cards, so an Undo before any SetMemento throws the dealt
  cards away (`Players.UndoBeforeSetMemento`).
- **The entity StartGame** (domain/entity/game.go:109-112). It ignores
  setPlayers' error and never sets `IsStarted` (`Games.Game.StartGame`).
- **A failed save at a round end** (service/game/gameservice.go:264-272).
  The player and the game are rolled back, but the reply still says the
  round ended (`BettingFacts.FailedSaveRollsBack`).
- **The sole winner in game/game.go** (game/game.go:462-489). It writes an
  empty balance batch, so no balance reaches the user store
  (`Ledger.LegacyWriteBack`).
- **removeLeftPlayers' error in service/game**
  (service/game/gameservice.go:178-181). The error is dropped, and the test
  after it checks a stale variable. Because the error is dropped, a panic of
  the removal is the only way out (`Service.ClearTable`).
- **The announced street** (service/gameservice.go:148-163). The response
  names the next street even when the round has not ended
  (`Service.Announced`).
- **A failed balance write in the entity version**
  (service/gameservice.go:172-174). `Bet` returns the error before the reset
  and the last save. The game it changed is the copy `GetGame` decoded for
  this request, and that copy is dropped. So the stored game stays as
  handleBet saved it at the end of the river round: still at River and
  started, with nobody paid and no reset. `Service.EntityEnd` states the
  dropped copy's state (GameEnd, not started); the stored game is outside
  the model (see "The stores" under Left out).
- **HandleReady.**
  - The service versions test `IsStarted` before looking the player up.
    game/game.go looks the player up first (`Admission.RefusedReadyChangesNothing`).
  - The entity version never remembers the new flag.
- **game/game.go's Start and AddPlayer.**
  - Start takes no memento of the game before changing it. A failed save
    therefore rolls back to whatever memento was last taken
    (`Admission.Start`).
  - AddPlayer's rollback leaves the new player at the table, because Undo
    does not touch the players (`Admission.AddPlayer`).

## Model

One row per member that states something about the source. Members are qualified by module and class.

| member | source | states |
|---|---|---|
| `Uint64.Add` | service/gameservice.go:235-236 | a uint64 `+=`: the exact sum below 2^64, the sum minus 2^64 above |
| `Uint64.Sub` | service/gameservice.go:338-339 | a uint64 `-=`: the exact difference when it is not negative, else the difference plus 2^64 |
| `Uint64.Wrap` | service/gameservice.go:235-236 | the wrapped value is the input when it fits and differs from it by a multiple of 2^64 |
| `Uint64.WrapTwice` | service/gameservice.go:313-320 | a chain of wrapping updates is one wrap of the exact total |
| `Int64.Quot` | service/gameservice.go:310 | Go's `/` truncates toward zero: the Euclidean quotient for a non-negative dividend, the negated quotient of the negation otherwise |
| `Int64.Wrap` | service/gameservice.go:310 | `int(...)` of a uint64 and a product that overflows: the two's-complement value, congruent modulo 2^64 |
| `Cards.SortCards` | card/utils.go:5-7 | the slice holds its old cards (same multiset), ascending by rank, in the order of the insertion sort sort.Slice runs on short slices |
| `Sorting.SortByCorrect` | card/utils.go:6 | the sort is ascending by key and a permutation of its input |
| `Sorting.Insert` | card/utils.go:6 | inserting one element behind the last key not greater than its own adds exactly one element (ordered and a permutation by InsertSorted and InsertPermutes) |
| `Sorting.InsertPermutes` | card/utils.go:6 | inserting adds exactly the inserted element to the multiset |
| `Sorting.InsertSorted` | card/utils.go:6 | inserting into a list sorted by key keeps it sorted |
| `Sorting.SortBy` | card/utils.go:6 | the insertion sort of sort.Slice on slices of at most 12 elements (Go 1.19 and later) keeps the length; SortByCorrect states order and permutation |
| `Sorting.SortSlice` | card/utils.go:6 | sort.Slice in place: the array ends up holding the sort of its old contents |
| `Sorting.SortIdempotent` | card/utils.go:6 | sorting a sorted slice again changes nothing |
| `Sorting.SortedKeysDetermined` | card/utils.go:6 | the sequence of ranks after sorting depends only on the multiset of the input |
| `Deck.FullDeck` | card/deck.go:11-22 | the unshuffled deck has 52 cards, ranks 2..14 outside and the four suits inside |
| `Deck.FullDeckComplete` | card/deck.go:11-22 | every card of the unshuffled deck is standard, every standard card is in it, and none twice |
| `Deck.Deck.constructor` | card/deck.go:10-26 | NewDeck: 52 cards, a permutation of the unshuffled deck, all standard and distinct |
| `Deck.Deck.Shuffle` | card/deck.go:28-33 | the swaps of rand.Shuffle keep the length and the multiset of the cards |
| `Deck.Deck.GetCard` | card/deck.go:35-40 | the last card is returned and the deck becomes the prefix without it; a deck of distinct standard cards stays so and no longer holds the card dealt |
| `HandsRank.IsRoyalStraightFlush` | card/hands_rank.go:161-176 | matches exactly the suited 10-J-Q-K-A and reports the Ace |
| `HandsRank.IsStraightFlush` | card/hands_rank.go:178-214 | on sorted cards: matches exactly a suited run not topped by an Ace, or the suited wheel; reports the straight's high card (Five for the wheel) |
| `HandsRank.IsFourCard` | card/hands_rank.go:216-232 | on sorted cards: matches exactly when a rank occurs four times, and reports that rank |
| `HandsRank.IsFullHouse` | card/hands_rank.go:234-250 | on sorted cards without five of a rank: matches exactly a three and a pair, and reports the rank of the three |
| `HandsRank.IsFlush` | card/hands_rank.go:252-259 | matches exactly five cards of one suit and reports the top rank |
| `HandsRank.IsStraight` | card/hands_rank.go:261-279 | on sorted cards: matches exactly five consecutive ranks or the wheel, reporting the straight's high card |
| `HandsRank.IsTriple` | card/hands_rank.go:281-301 | on sorted cards: matches exactly when a rank occurs three or more times, and reports it |
| `HandsRank.IsTwoPair` | card/hands_rank.go:303-317 | on sorted cards without a three: matches exactly two pairs whose middle card is paired (missing X X Y Z Z) and reports the upper pair |
| `HandsRank.IsOnePair` | card/hands_rank.go:322-329 | on sorted cards: matches exactly when some rank repeats, and reports the lowest repeated rank |
| `HandsRank.CheckHandsRank` | card/hands_rank.go:82-135 | the category is the strongest whose test matches the sorted cards, its high card is that test's, and no stronger test matches |
| `HandsRank.AllCombinations` | card/hands_rank.go:141-154 | every list makeAllCombinations builds has five cards |
| `HandsRank.CombinationsCount` | card/hands_rank.go:141-154 | the number of lists is the binomial coefficient of the cards left and the cards still to pick |
| `HandsRank.TwentyOneCombinations` | card/hands_rank.go:141-154 | seven cards give exactly 21 five-card lists |
| `HandsRank.CombinationShape` | card/hands_rank.go:141-154 | every list is the prefix followed by the cards at strictly increasing positions |
| `HandsRank.CombinationsComplete` | card/hands_rank.go:141-154 | conversely, the prefix followed by the cards at any strictly increasing positions from `i` on is one of the lists, so no five-card subset is skipped |
| `HandsRank.Combinations` | card/hands_rank.go:141-154 | the lists makeAllCombinations appends from a prefix: at level 5 just the prefix itself |
| `HandsRank.MakeAllCombinations` | card/hands_rank.go:141-154 | the recursion with its push and pop appends exactly the lists Combinations describes, in order |
| `HandsRank.Evaluate` | card/hands_rank.go:38-40 | a candidate holds its five cards sorted by rank (same multiset) and a category between HighCard and RoyalStraightFlush |
| `HandsRank.BestOfIsMaximal` | card/hands_rank.go:37-71 | no candidate beats the kept one in (category, high card) |
| `HandsRank.BestOfIsMember` | card/hands_rank.go:37-71 | the kept candidate is one of the candidates |
| `HandsRank.BestHandsRankIsMaximal` | card/hands_rank.go:24-74 | the returned category and high card are at least those of every list makeAllCombinations builds |
| `HandsRank.EverySubsetConsidered` | card/hands_rank.go:24-74 | no five-card subset of the seven cards, given by any five strictly increasing positions, beats the returned hand in (category, high card) |
| `HandsRank.BestHandsRankIsASubset` | card/hands_rank.go:24-74 | the returned cards are the cards at five strictly increasing positions of the input, sorted by rank |
| `HandsRank.GetBestHandsRank` | card/hands_rank.go:24-74 | panics unless given seven cards; otherwise returns what the walk over the 21 subsets keeps |
| `HandsRank.KeepBest` | card/hands_rank.go:37-71 | the loop keeps the candidate BestOf describes |
| `HandsRank.KeepBetter` | card/hands_rank.go:42-69 | one round: category first, then high card, then the kicker scan that replaces on the first lower position from the top |
| `HandsRank.Better` | card/hands_rank.go:42-69 | one round keeps the best or takes the candidate, and the kept hand is at least both in (category, high card) |
| `HandsRank.KickerReplaces` | card/hands_rank.go:60-68 | the kicker scan keeps the best only when no position of the candidate holds a higher rank than the best at that position |
| `HandsRank.Evaluated` | card/hands_rank.go:38-40 | the copied, sorted and classified candidate is Evaluate of the list |
| `HandsRank.SameCardsSameRank` | card/hands_rank.go:82-83 | checkHandsRank sorts first, so lists that sort alike get the same answer |
| `HandsRankExamples.SampleBestFive` | card/hands_rank_test.go:33-61 | the subset {Qs,6h,Ad,Ks,6s} of the sample hand {Qs,6h,Ad,Ks,6s,3c,2c} evaluates to the expected answer: a pair of sixes, cards [6h,6s,Qs,Ks,Ad] |
| `HandsRankExamples.RoyalExample` | card/hands_rank_test.go:64-91 | suited 10-J-Q-K-A is a royal straight flush reporting the Ace |
| `HandsRankExamples.NineToKingExample` | card/hands_rank_test.go:64-91 | suited 9-K is a straight flush, not a royal one |
| `HandsRankExamples.WheelExample` | card/hands_rank_test.go:93-147 | the suited wheel is a straight flush with high card Five |
| `HandsRankExamples.TwoPairMissed` | card/hands_rank.go:303-317 | 2 2 5 9 9 falls through to a pair of twos |
| `HandsRankExamples.KickerReplacesStronger` | card/hands_rank.go:60-68 | the kicker scan replaces a pair of sixes with an Ace kicker by one with a King kicker |
| `HandsRankExamples.SampleSort` | card/hands_rank.go:76-78 | the sample's best five sort to [6h,6s,Qs,Ks,Ad], the sixes in input order |
| `Sorting.InsertionStep` | card/utils.go:6 | one pass of the outer loop of sort.Slice's insertion sort: the prefix up to `i` becomes the insertion of `a[i]` into the sorted prefix, the rest is untouched |
| `Sorting.SwapLeft` | card/utils.go:6 | the inner loop swaps the element left past every larger key and stops at the first key not greater, giving the layout the insertion describes |
| `HandsRank.Candidates` | card/hands_rank.go:29-40 | exactly 21 candidates, the k-th being the evaluation of the k-th subset in makeAllCombinations' order |
| `HandsRank.BestOf` | card/hands_rank.go:32-71 | the walk over the candidates keeps a five-card hand |
| `Showdown.RanksDown` | player/player.go:70 | the ranks read from the last card down to the first, one per card |
| `Showdown.KickersAreLex` | player/player.go:70-77 | the kicker scan is the lexicographic comparison of the ranks from the top |
| `Showdown.CompareIsLex` | player/player.go:59-80 | compare is the lexicographic comparison of (category, high card, ranks from the top) |
| `Showdown.Compare` | player/player.go:59-81 | the category decides first: a win never goes to the lower category, and a draw means the same category and high card |
| `Showdown.LexFlip` | player/player.go:59-80 | swapping the operands swaps the winner, and a draw means equal keys |
| `Showdown.LexTransitive` | player/player.go:59-80 | the lexicographic order is transitive, strictly when one step is strict |
| `Showdown.CompareAntisymmetric` | player/player.go:59-80 | compare(p1, p2) is Player1Win exactly when compare(p2, p1) is Player2Win; a draw means same category, high card and card ranks |
| `Showdown.CompareReflexive` | player/player.go:59-80 | a player draws against itself |
| `Showdown.CompareTransitive` | player/player.go:59-80 | "beats or ties" is transitive, strictly when one step is strict |
| `Showdown.SameRanksDraw` | player/player.go:59-80 | equal category, high card and card ranks draw whatever the suits |
| `Showdown.KickersDraw` | player/player.go:70-78 | equal ranks leave the kicker scan at Draw |
| `Showdown.WinnersAreTheBest` | player/player.go:25-54 | nobody beats the first winner, and the winners are exactly the players that tie with it, in input order |
| `Showdown.NewLeader` | player/player.go:44-47 | a player beating the current leader beats or ties everybody so far and is the only winner |
| `Showdown.DrawsAppend` | player/player.go:48-50 | appending a player adds it to the winners exactly when it ties |
| `Showdown.NoDraws` | player/player.go:44-47 | when nobody ties a player, it stays alone |
| `Showdown.GetWinners` | player/player.go:25-54 | panics on no players; otherwise the loop returns the fold the lemmas describe |
| `ShowdownExamples.OnePairBeatsHighCard` | player/player_test.go:9-43 | a pair of fives beats Jack high |
| `ShowdownExamples.AceKickerBeatsJack` | player/player_test.go:44-76 | on the same pair of fives the Ace kicker wins |
| `ShowdownExamples.AcesUpWinsAlone` | player/player_test.go:78-125 | aces up beats sixes up and a pair and wins alone |
| `ShowdownExamples.WheelsSplit` | player/player_test.go:126-171 | three wheels of different suits tie and all three win, in input order |
| `Showdown.Winners` | player/player.go:25-54 | the loop keeps at least one winner, and every winner is one of the players |
| `TurnOrder.NextIdx` | domain/entity/game.go:343-346 | the next seat round the table: idx+1, or 0 after the last seat |
| `TurnOrder.Around` | domain/entity/game.go:332-337 | the seat reached after k steps of getNextIdx is a seat of the table |
| `TurnOrder.ReadyScan` | domain/entity/game.go:332-337 | each round of the loop stays on a seat of the table |
| `TurnOrder.ReadyPlayerIdx` | domain/entity/game.go:330-339 | getReadyPlayerIdx returns a seat of the table |
| `TurnOrder.Offset` | domain/entity/game.go:343-346 | the number of getNextIdx steps leading from one seat to another |
| `TurnOrder.ScanFinds` | domain/entity/game.go:332-337 | the loop stops at the first ready seat it meets, or returns to the start after seeing nobody ready |
| `TurnOrder.ReadyPlayerIdxIsFirstReady` | domain/entity/game.go:330-339 | the result is the first ready seat at or after idx going round; when it is not ready, nobody is and it is idx itself |
| `TurnOrder.PlayerIdxFrom` | service/utils.go:28-35 | from position i on: the first seat with the nickname and none before it, or NoPlayerExists when no later seat has it |
| `TurnOrder.PlayerIdx` | service/utils.go:28-35 | getPlayerIdx: the first seat with the nickname, or NoPlayerExists exactly when no seat has it |
| `TurnOrder.PlayerIdxKeeps` | service/utils.go:28-35 | changing a seat but not its nickname keeps it the first seat with that nickname |
| `TurnOrder.Select` | domain/entity/game.go:146-156 | the kept positions are seats the filter accepts, strictly increasing |
| `TurnOrder.SelectSnoc` | domain/entity/game.go:67-77 | filtering a list one longer adds that seat exactly when it is kept |
| `TurnOrder.SelectComplete` | domain/entity/game.go:146-156 | every seat the filter accepts is among the kept positions |
| `TurnOrder.ValidAreReady` | domain/entity/game.go:146-156 | every valid player is a ready player |
| `TurnOrder.ReadyFrom` | domain/entity/game.go:352-353 | getReadyPlayerIdx(idx+1) without wrapping: a seat when idx+1 is one, a panic past the last seat |
| `TurnOrder.Walk` | domain/entity/game.go:351-358 | the loop never fails; when it moves off its start it ends on a seat of the table |
| `TurnOrder.NextPlayerIdx` | domain/entity/game.go:349-366 | an answer is a seat other than the current one; the only error is NoPlayersLeft, which an empty table gets |
| `TurnOrder.WalkLands` | domain/entity/game.go:351-358 | the walk ends where it started or on a ready seat |
| `TurnOrder.IdleWalkPanics` | domain/entity/game.go:351-358 | with nobody ready the walk steps one seat at a time off the end of the table |
| `TurnOrder.NextPlayerIdxSound` | domain/entity/game.go:349-366 | an answer is a seat of the table, not the current one, holding a ready player |
| `TurnOrder.NextPlayerIsFirstInHand` | domain/entity/game.go:349-366 | when the first ready seat after the current one is still in the hand, it is next |
| `TurnOrder.LastSeatPanics` | domain/entity/game.go:352 | asking from the last seat reads players[len] and panics |
| `TurnOrder.FoldedPlayerChosen` | domain/entity/game.go:349-366 | a table on which the next player returned has already folded |
| `TurnOrder.EveryoneOutPanics` | game/game_test.go:202-238 | the NoPlayersLeft table of the legacy test panics instead |
| `TurnOrder.NobodyElseLeft` | domain/entity/game.go:361-363 | a walk that comes back to the current seat reports NoPlayersLeft |
| `Bets.GetBetType` | service/utils.go:37-45 | all-in exactly when the wrapped total bet reaches the game balance, a raise exactly when otherwise the street bet would pass the table's, a check in every other case |
| `Bets.ValidBetAgrees` | game/game.go:341-356 | isValidBet agrees with getBetType on every bet it accepts, refuses exactly the over-balance bets and the under-calls that are not all-in, and never panics |
| `Bets.IsValidBetExamples` | game/game_test.go:152-200 | check, raise, all-in, OverBalance and LowBetting for a balance of 200 against a table bet of 20 |
| `Bets.UnderCallIsCheck` | service/utils.go:41-44 | getBetType calls an under-call a check |
| `Bets.HugeBetWrapsToRaise` | service/utils.go:38-41 | a bet of 2^64-20 on top of 30 wraps to a total of 10 and passes as a raise in both versions |
| `Table.ReadyNamesCount` | domain/entity/game.go:254-261 | the names setPlayers returns are one per ready player |
| `Table.ReadyNames` | domain/entity/game.go:254-261 | the names setPlayers returns are no more than the players, each the nickname of a ready player |
| `Table.AssignSeats` | domain/entity/game.go:241-302 | LackOfPlayers exactly when fewer than two players sit, NotEnoughPlayersReady exactly when fewer than two are ready |
| `Table.SomeoneReady` | domain/entity/game.go:262-264 | once someone is ready, getReadyPlayerIdx from any seat lands on a ready player |
| `Table.AssignedSeatsAreReady` | domain/entity/game.go:276-290 | with more than two players, blinds and first player are ready seats of the table |
| `Table.HeadsUpSeats` | domain/entity/game.go:281-294 | heads-up the first hand seats 0 and 1 with the small blind first; later hands swap the blinds |
| `Table.ThreeHandedSecondHandPanics` | domain/entity/game.go:288-290 | three ready players: the first hand seats 0, 1, 2; at the second the first player is looked for past the last seat and the call panics |
| `Table.SelectOnly` | domain/entity/game.go:310-321 | when only one seat passes the filter, the filter returns just that seat |
| `Table.MoveBlindPast` | domain/entity/game.go:310-321 | a blind the loop has already passed is not moved again |
| `Table.LeftSeats` | domain/entity/game.go:310-321 | the recorded seats are exactly the seats of players who left |
| `Table.MoveBlind` | domain/entity/game.go:310-321 | the loop leaves a blind where it is or moves it to a seat of the table |
| `Table.FirstStaying` | domain/entity/game.go:310-321 | every seat from the blind up to the result was left, and when all of them were, seat 0 |
| `Table.MoveBlindFrom` | domain/entity/game.go:310-321 | from the blind's seat on, the loop moves it to the first seat that stayed |
| `Table.MoveBlindIsFirstStaying` | domain/entity/game.go:307-321 | removeLeftPlayers moves each blind to the first staying seat at or after it, or to seat 0 past the end |
| `Table.FirstStayingSpec` | domain/entity/game.go:310-321 | that seat is 0 or a seat at or after the blind whose player stayed |
| `Table.RemoveAllKeeps` | domain/entity/game.go:323-325 | the removals only drop players |
| `Table.RemoveAt` | domain/entity/game.go:368-370 | removePlayerByIndex succeeds exactly on a seat of the table and panics otherwise; the others keep their order |
| `Table.RemoveAll` | domain/entity/game.go:323-325 | the removals never fail; when none panics, one player goes per recorded seat |
| `Table.RemoveLeft` | domain/entity/game.go:307-326 | removeLeftPlayers never fails; when it does not panic, as many players go as were left, only players of the table stay, and each blind on the table moves to the first staying seat at or after it |
| `Table.OneLeftRemoved` | domain/entity/game.go:307-326 | with one player gone exactly that player is removed and the rest keep their order |
| `Table.StaleSeatRemovesWrongPlayer` | domain/entity/game.go:323-325 | seats 0 and 1 left: the second removal uses a stale index and removes the player who stayed |
| `Table.StaleSeatPanics` | domain/entity/game.go:368-370 | seats 1 and 2 of three left: the second removal is past the end and panics |
| `Table.Dealt` | domain/entity/game.go:137-143 | dealing keeps the number of seats |
| `Table.DealtStep` | domain/entity/game.go:140-142 | each round of the loop gives one seat the last two cards left, and changes nothing else |
| `Table.DealsBySeatNotByPlayer` | domain/entity/game.go:138-141 | it counts the players in the hand but deals to the first seats: a folded seat 0 gets cards, the live seat 1 none |
| `Table.MapStates` | domain/entity/game.go:158-162 | a per-player reset keeps the seats and applies to each player |
| `Players.NewPlayerMemento` | domain/entity/player.go:99-112 | the memento copies id, nickname, the four flags and the four amounts, and holds no cards |
| `Players.MementoKeepsCardlessPlayer` | domain/entity/player.go:99-112 | the memento equals the player exactly when the player holds no cards |
| `Players.NewHand` | domain/entity/game.go:125-134 | a new hand clears the bets, the fold and all-in flags and the cards, and keeps identity, readiness, the left flag and the balances |
| `Players.PlayerMemento.constructor` | domain/entity/player.go:99-112 | the memento holds the given state |
| `Players.Player.New` | domain/entity/player.go:25-42 | no flag set, nothing bet, the given balances, no cards, and a fresh memento equal to that state |
| `Players.Player.Undo` | domain/entity/player.go:44-61 | all fourteen fields take the memento's values; the memento is unchanged |
| `Players.Player.AssignSeat` | domain/entity/player.go:47-51 | identity and flags take the given values, nothing else changes |
| `Players.Player.AssignMoney` | domain/entity/player.go:52-56 | the all-in flag and the four amounts take the given values, nothing else changes |
| `Players.Player.AssignCards` | domain/entity/player.go:57-60 | the hand, its rank, its high card and the best cards take the given values, nothing else changes |
| `Players.Player.ClearCurrentBet` | domain/entity/game.go:158-162 | only the current bet becomes 0 |
| `Players.Player.ResetHand` | domain/entity/game.go:125-134 | the player's state becomes NewHand of the old state |
| `Players.Player.SetMemento` | domain/entity/player.go:63-80 | the memento takes all fourteen current values; the player is unchanged |
| `Players.States` | domain/entity/game.go:28 | one state per player, in seat order |
| `Players.Mementos` | domain/entity/player.go:82-97 | one memento state per player, in seat order |
| `Players.RollbackRestores` | domain/entity/player.go:44-80 | SetMemento, any change, Undo brings back all fourteen fields; a second Undo changes nothing |
| `Players.UndoBeforeSetMemento` | domain/entity/player.go:25-61 | an Undo before any SetMemento loses the cards dealt and returns the other ten fields to New's |
| `Games.NewGameMemento` | domain/entity/game.go:463-473 | the memento copies the room, the two bets, the started flag, the reference to the deck and the street; seat indices start at 0 and the first-bet flag false |
| `Games.MementoKeepsUnseatedGame` | domain/entity/game.go:463-473 | the memento equals the game exactly when no seat index is set |
| `Games.RemoveAllStates` | domain/entity/game.go:323-325 | removing seats from the players and from their states agree, panics included |
| `Games.FoldPanics` | domain/entity/game.go:190-212 | once one comparison panics the whole winner loop does |
| `Games.ScanLeft` | domain/entity/game.go:310-321 | the first loop of removeLeftPlayers records the seats that were left and moves each blind as MoveBlind says |
| `Games.RemoveSeats` | domain/entity/game.go:323-325 | the second loop removes at each recorded seat, panicking as RemoveAll says |
| `Games.SortSeats` | domain/entity/game.go:183-185 | sort.Slice on the seats (Go 1.19 and later) yields the stable sort by the key |
| `Games.Fold` | domain/entity/game.go:188-212 | the winner loop computes FoldWinners: a stronger hand with an equal total bet replaces the winners, with a different one joins them |
| `Games.CollectLosers` | domain/entity/game.go:224-236 | each player of the pool whose nickname no winner has, in order |
| `Games.Settle` | domain/entity/game.go:171-238 | ZeroPlayer with nobody in the hand, a sole winner without losers, otherwise the sorted fold and the losers as WinnersAndLosers says |
| `Games.DrawPair` | domain/entity/game.go:141 | two GetCard calls take the last card, then the one before it, and shorten the deck by two |
| `Games.GameMemento.constructor` | domain/entity/game.go:447-461 | the memento holds the given fields |
| `Games.Game.NewGame` | domain/entity/game.go:48-65 | the host alone, nothing bet, not started, a fresh shuffled 52-card deck, FreeFlop, seat indices 0, and a fresh memento equal to the fields |
| `Games.Game.Undo` | domain/entity/game.go:398-414 | the thirteen fields take the memento's values; players, host, minimum bet and memento stay |
| `Games.Game.SetFields` | domain/entity/game.go:401-413 | all thirteen memento fields take the given values, nothing else changes |
| `Games.Game.SetTable` | domain/entity/game.go:401-404 | room and bet totals take the given values, nothing else changes |
| `Games.Game.SetRound` | domain/entity/game.go:405-411 | the started flag, the deck, the street and the first-bet flag take the given values, nothing else changes |
| `Games.Game.SetSeats` | domain/entity/game.go:408-413 | the five seat indices take the given values, nothing else changes |
| `Games.Game.SetMemento` | domain/entity/game.go:416-432 | the memento takes the thirteen current values |
| `Games.Game.SelectSeats` | domain/entity/game.go:146-156 | the filter loop returns the seats Select describes |
| `Games.Game.GetValidPlayers` | domain/entity/game.go:146-156 | the players in the hand, in table order |
| `Games.Game.GetReadyPlayers` | domain/entity/game.go:67-77 | the ready players, in table order |
| `Games.Game.FindPlayer` | domain/entity/game.go:100-107 | the player at the first seat with the nickname, or nil exactly when no seat has it |
| `Games.Game.ClearPlayersCurrentBet` | domain/entity/game.go:158-162 | every player's current bet becomes 0 and nothing else of theirs or of their mementos changes, aliasing included |
| `Games.Game.ClearStep` | domain/entity/game.go:159-161 | one more player cleared, the rest as before |
| `Games.Game.GetNextPlayerIdx` | domain/entity/game.go:349-366 | the loop computes NextPlayerIdx, panic on the last seat included |
| `Games.Game.ReadyPlayerNames` | domain/entity/game.go:254-261 | the nicknames of the ready players, in table order |
| `Games.Game.ChooseSeats` | domain/entity/game.go:270-295 | the blinds and first player of AssignSeats, panics included |
| `Games.Game.SetPlayers` | domain/entity/game.go:241-302 | an error changes nothing; otherwise the ready names, and the seats AssignSeats picks with current player and bet leader on the first player |
| `Games.Game.RemoveLeftPlayers` | domain/entity/game.go:307-326 | the players become RemoveAll of the left seats and the blinds move as MoveBlind says, or the call panics |
| `Games.Game.ResetPlayers` | domain/entity/game.go:125-134 | every player's state becomes NewHand of its old state |
| `Games.Game.InitGame` | domain/entity/game.go:115-135 | bets and flags cleared, a fresh full deck, FreeFlop, the left players removed with the blinds moved, every remaining player on a new hand |
| `Games.Game.GiveCardsToPlayers` | domain/entity/game.go:137-143 | as many players as are in the hand, counted from seat 0, take the last two cards each; panics when the deck runs out; mementos unchanged |
| `Games.Game.DealRounds` | domain/entity/game.go:140-142 | k rounds deal Dealt and shorten the deck by 2k, or panic |
| `Games.Game.DealRound` | domain/entity/game.go:141 | one round deals to seat i as Dealt says |
| `Games.Game.DealTo` | domain/entity/game.go:141 | seat i appends the two cards; nobody else changes |
| `Games.Game.StartGame` | domain/entity/game.go:109-112 | setPlayers, its error ignored, then the deal: the seats only on success, and never the started flag |
| `Games.Game.GetWinnersAndLosers` | domain/entity/game.go:167-239 | the winners and losers WinnersAndLosers defines |
| `Winners.Judge` | domain/entity/game.go:375-396 | compare on two players; it panics exactly when category and high card tie and the first player holds more best cards than the second |
| `Winners.MostBetFirst` | domain/entity/game.go:183-185 | the key orders the seats of the table by total bet, largest first |
| `Winners.LeastBetFirst` | domain/entity/game.go:219-221 | the key orders the seats of the table by total bet, smallest first |
| `Winners.Step` | domain/entity/game.go:190-212 | one round of the winner loop keeps winners at the table, non-empty, led by an old winner or the new player |
| `Winners.FoldWinners` | domain/entity/game.go:188-212 | the winners so far are non-empty seats of the players compared so far |
| `Winners.Losers` | domain/entity/game.go:224-236 | the losers are exactly the players of the pool, in its order, whose nickname no winner has |
| `Winners.SortKeepsSeats` | domain/entity/game.go:183-185 | sorting seats keeps the same seats |
| `Winners.Order` | domain/entity/game.go:183-185 | the players in the hand, most bet first, are seats of the table |
| `Winners.Folded` | domain/entity/game.go:188-212 | the winners before the final sort are non-empty and all in the hand |
| `Winners.WinnersAndLosers` | domain/entity/game.go:167-239 | winners and losers are seats of the table |
| `Winners.FewPlayers` | domain/entity/game.go:171-177 | "zero player" exactly when nobody is in the hand; one player in the hand wins alone and nobody loses |
| `Winners.WinnersShape` | domain/entity/game.go:167-239 | with two or more in the hand: at least one winner, all in the hand, least bet first; the losers are the pool's players whose nickname no winner has (the ready players, or in game/game.go the players in the hand) |
| `Winners.SortedWinners` | domain/entity/game.go:219-221 | the final sort leaves the winners in the hand and ascending by total bet |
| `Winners.SortPair` | domain/entity/game.go:183-185 | sorting two seats swaps them exactly when the key says so |
| `Winners.TwoInHand` | domain/entity/game.go:146-156 | two players in the hand are the seats 0 and 1 of both filters |
| `Winners.SelectTwo` | domain/entity/game.go:146-156 | a filter keeping two players of two returns seats 0 and 1 |
| `Winners.TwoFolded` | domain/entity/game.go:183-212 | with two in the hand the fold is one comparison of the bigger bettor with the other |
| `Winners.ShortStackJoins` | domain/entity/game.go:202-206 | a short all-in stack beating the bigger bettor joins it as a winner |
| `Winners.BetterHandReplaces` | domain/entity/game.go:198-201 | with equal total bets the better hand replaces the winners |
| `Payout.CreditDebitInverse` | service/gameservice.go:313-320 | modulo 2^64 a debit undoes a credit and a credit undoes a debit; only the two balances change |
| `Payout.AddSub` | service/gameservice.go:313-320 | wrapping `+=` and `-=` of the same amount cancel |
| `Payout.Credit` | service/gameservice.go:313-314 | a credit changes the game and total balances and nothing else |
| `Payout.BalancesMoveByX` | service/gameservice.go:313-320 | a credit raises both balances by x and a debit lowers both by x, modulo 2^64 |
| `Payout.Debit` | service/gameservice.go:319-320 | a debit changes the game and total balances and nothing else |
| `Payout.Reward` | service/gameservice.go:310 | the reward is 0 when nobody lost or the bet is 0 (RewardExact gives the quotient otherwise) |
| `Payout.RewardExact` | service/gameservice.go:310 | while losers times bet stays below 2^63 the reward is the plain quotient |
| `Payout.CreditEach` | service/gameservice.go:312-315 | crediting the waiting seats keeps the number of seats |
| `Payout.DebitTimes` | service/gameservice.go:318-321 | the loop debits `winners[i]` once per later winner and keeps the number of seats |
| `Payout.CreditShares` | service/gameservice.go:329-335 | the last shares keep the number of seats |
| `Payout.DebitLosers` | service/gameservice.go:337-340 | the loser loop keeps the number of seats |
| `Payout.Boundary` | service/gameservice.go:305-326 | one round never fails, keeps the seats, and queues only seats of the table; an empty waiting list at a step is a division by zero |
| `Payout.SidePots` | service/gameservice.go:300-327 | the side-pot loop never fails, keeps the seats and queues only seats of the table |
| `Payout.Distribute` | service/gameservice.go:279-343 | the payout never fails and keeps the seats; no winner at all panics |
| `Payout.SidePotsStayPanicked` | service/gameservice.go:304-327 | once a round panics the loop does |
| `Payout.DebitLosersPays` | service/gameservice.go:337-340 | each distinct loser pays exactly its own total bet, once; nobody else changes |
| `Payout.CreditSharesPays` | service/gameservice.go:329-335 | each waiting seat is credited its share of its own bet times the losers, once; nobody else changes |
| `Payout.SoleWinner` | service/gameservice.go:284-295 | a sole winner is credited the game total minus its own bet, each loser debited its own bet, nobody else touched |
| `Payout.SoleWinnerPaysOwnBet` | service/gameservice.go:286-287 | with a game total of 0 the sole winner's credit wraps and it pays its own total bet |
| `Payout.WrapNegate` | service/gameservice.go:286 | adding the wrapped `0 - x` is subtracting x |
| `Payout.SidePotsFlat` | service/gameservice.go:324-326 | winners on one total bet are only queued |
| `Payout.EqualBets` | service/gameservice.go:279-343 | winners on one total bet each get (losers x bet) / winners, the exact quotient below 2^63; losers pay their bets; nobody else touched |
| `Payout.WrongWinnerDebited` | service/gameservice.go:318-323 | winners on 10, 20, 20 and a loser on 20: the first 20 is debited twice and dropped from the queue, ending at 80 against 120 |
| `Payout.DividesByZero` | service/gameservice.go:309-310 | winners on 10, 20, 30: the second step divides by an empty waiting list and panics |
| `Ledger.Batch` | service/gameservice.go:346-350 | one (id, total balance) entry per listed player, in order |
| `Ledger.CopySeats` | service/gameservice.go:354-356 | copying states seat by seat keeps the number of seats |
| `Ledger.CopySeatsIs` | service/gameservice.go:354-356 | a listed seat, however often listed, ends with the source's state; every other seat keeps its own |
| `Ledger.CopySeatsTwice` | game/game.go:539-557 | undoing (or remembering) the same players twice is doing it once |
| `Ledger.CreditSeat` | service/gameservice.go:313-314 | one seat's two balances go up by x, wrapping; nobody else and no memento changes |
| `Ledger.DebitSeat` | service/gameservice.go:338-339 | one seat's two balances go down by x, wrapping; nobody else and no memento changes |
| `Ledger.CreditAll` | service/gameservice.go:312-315 | the loop credits the waiting seats as CreditEach says |
| `Ledger.DebitRepeat` | service/gameservice.go:318-321 | the loop debits `winners[i]` once per round, as DebitTimes says |
| `Ledger.SidePotStep` | service/gameservice.go:305-326 | one round computes Boundary, panic included, and never fails |
| `Ledger.SidePotRound` | service/gameservice.go:304-327 | after round i the players and the waiting list are SidePots after i+1 rounds; a panic is the whole loop's |
| `Ledger.SidePotLoop` | service/gameservice.go:300-327 | the loop computes SidePots and never fails; mementos unchanged |
| `Ledger.ShareOut` | service/gameservice.go:329-335 | the last winner loop computes CreditShares |
| `Ledger.ChargeLosers` | service/gameservice.go:337-340 | the loser loop computes DebitLosers |
| `Ledger.DistributeMoney` | service/gameservice.go:284-342 | the payout computes Distribute, panic included; mementos unchanged |
| `Ledger.DistributeMoneyToWinners` | service/gameservice.go:279-343 | a showdown error pays nobody and returns no winners (game/game.go:458-460 returns the error); otherwise the payout of Distribute on the showdown's winners and losers |
| `Ledger.UndoSeat` | service/gameservice.go:355 | the seat takes its memento's state |
| `Ledger.RememberSeat` | game/game.go:579 | that seat's memento takes its state; the players and the other mementos stay |
| `Ledger.UndoSeats` | service/gameservice.go:354-356 | the rollback loop is CopySeats from the mementos |
| `Ledger.RememberSeats` | game/game.go:578-580 | the memento loop is CopySeats into the mementos |
| `Ledger.BuildBatch` | service/gameservice.go:348-350 | the loop builds Batch |
| `Ledger.UpdatePlayersBalance` | service/gameservice.go:345-361 | the batch of ids and balances; a failed write undoes every listed player and fails, a good one leaves the players and, in the remembering versions, updates their mementos |
| `Ledger.LegacyWriteBack` | game/game.go:473-487 | game/game.go writes an empty batch for a sole winner and winners then losers otherwise; winners and losers are undone on failure and remembered on success |
| `Betting.Admit` | service/gameservice.go:200-216 | NoPlayerExists, a panic on a current seat off the table, InvalidPlayerTurn, PlayerNotReady, DeadPlayer, PlayerLeft in that order; an admitted bettor sits at a seat holding its nickname |
| `Betting.Staked` | service/gameservice.go:230-236 | the stake sets the all-in flag on an all-in bet and otherwise keeps it, adds the amount to both bets modulo 2^64, and changes nothing else |
| `Betting.BetTypeOf` | game/game.go:285-289 | the type of an accepted bet is getBetType's; only game/game.go's isValidBet ever refuses one, and nothing panics |
| `Betting.Rollback` | service/game/gameservice.go:241-252 | p.Undo puts the bettor's seat back to its memento outside the entity version (which has none) and leaves every other seat |
| `Betting.FoldSpec` | service/gameservice.go:220-228 | a fold marks the bettor dead and looks up the next player; no game field changes and the number of players is kept |
| `Betting.StakeSpec` | service/gameservice.go:230-236 | the bet type (game/game.go refusing over-balance and under-called bets unchanged), then the wrapped stake; the deck is the old one or the memento's |
| `Betting.NextSpec` | service/gameservice.go:238-241 | no next player is an error, the bettor undone outside the entity version |
| `Betting.AfterStakeSpec` | service/gameservice.go:243-256 | a bet above the table's makes the bettor the bet leader, sets the table's bet and passes the turn, unsaved |
| `Betting.CallSpec` | service/gameservice.go:257-276 | a call ends the round when the first ready seat after the bettor is the bet leader's, panics from the last seat, otherwise passes the turn |
| `Betting.RoundEndSpec` | service/gameservice.go:259-266 | the round end puts the first player to act, clears every current bet and saves; a failed save is an error in the entity version, a rollback still reporting the round end elsewhere |
| `Betting.AdvanceSpec` | service/gameservice.go:269-275 | the turn passes to the next player and the game is saved; a failed save is an error, with a rollback outside the entity version |
| `Betting.HandleBetSpec` | service/gameservice.go:199-277 | handleBet's reply or error and the new players and fields; the number of players is kept and the deck is the old one or the memento's |
| `Betting.SeatOf` | service/utils.go:28-35 | the loop computes PlayerIdx |
| `Betting.HandleBet` | service/gameservice.go:199-277 | the call on the game does exactly what HandleBetSpec says, keeps the players list and touches no memento |
| `Betting.AdmitBettor` | service/gameservice.go:200-216 | the checks give Admit's error or panic, or the bettor at the admitted seat |
| `Betting.FoldBet` | service/gameservice.go:220-228 | the fold branch does what FoldSpec says |
| `Betting.StakeBet` | service/gameservice.go:230-241 | the bet branch does what StakeSpec says |
| `Betting.NextBet` | service/gameservice.go:238-241 | the next-player lookup does what NextSpec says |
| `Betting.AfterStake` | service/gameservice.go:243-276 | the rest of the bet branch does what AfterStakeSpec says |
| `Betting.Raise` | service/gameservice.go:252-256 | the table's bet becomes the bettor's, the bettor leads and the turn passes; the reply carries those values |
| `Betting.Call` | service/gameservice.go:257-276 | the call branch does what CallSpec says |
| `Betting.RoundEnd` | service/gameservice.go:259-266 | the round end does what RoundEndSpec says |
| `Betting.Advance` | service/gameservice.go:269-275 | passing the turn does what AdvanceSpec says |
| `Betting.MarkDead` | service/gameservice.go:221 | only the bettor's fold flag is set |
| `Betting.Stake` | service/gameservice.go:231-236 | the all-in flag, then both of the bettor's bets grow by the amount, wrapping; nothing else changes |
| `Betting.UndoBettor` | service/game/gameservice.go:241-245 | the bettor takes its memento's state |
| `Betting.RollBack` | service/game/gameservice.go:277-281 | the bettor and the game take their mementos' values |
| `BettingFacts.AdmitsTurnHolder` | service/gameservice.go:200-216 | the checks pass exactly for the turn holder when ready, not folded and not gone; with unique nicknames the bettor is at the current seat |
| `BettingFacts.RefusedBetChangesNothing` | service/gameservice.go:200-216 | a refused bet changes no player and no field and returns the check's error or panic |
| `BettingFacts.FoldKeepsTurn` | service/gameservice.go:220-228 | a fold only marks the bettor dead; the current seat does not move and the store's answer is never asked; it succeeds exactly when GetNextPlayerIdx finds a next player, and the reply names that player, who is ready and not at the current seat |
| `BettingFacts.StakeAddsAmount` | service/gameservice.go:235-236 | an accepted stake that does not end the round adds the amount to both of the bettor's bets (wrapping), sets the all-in flag exactly when the bet reaches the game balance (else keeps it), keeps its balance, reports the new total, leaves every other seat alone, and the reply names the player now to act |
| `BettingFacts.RoundEnds` | service/gameservice.go:252-276 | a bet ends the round exactly when it is accepted, is no raise, a next player exists, the first ready seat after the bettor is the bet leader's, and the save succeeds or the version rolls back; then every other current bet is cleared and, after a save, the first player is to act with the bettor's current bet cleared too, or after a failed save the bettor and the game are back at their mementos |
| `BettingFacts.AfterStakeMidRound` | service/gameservice.go:252-276 | after the stake, a reply that does not end the round keeps the staked players, hands the turn to the next player and names that player |
| `BettingFacts.AfterStakeRoundEnd` | service/gameservice.go:252-276 | after the stake, the round ends exactly when the bet is no raise, the first ready seat after the bettor is the bet leader's and the reply survives the save; the table then is as RoundEnds says |
| `BettingFacts.RoundEndClears` | service/gameservice.go:259-266 | the round end replies with isBetEnd unless an entity save fails; every other current bet is cleared; a save puts the first player to act, a failed rollback save restores the bettor and the game |
| `BettingFacts.AfterStakeKeepsTotal` | service/gameservice.go:243-276 | after the stake the game total is kept or restored from the memento, and the reply reports it |
| `BettingFacts.GameTotalBetNeverGrows` | service/gameservice.go:199-277 | no bet raises the game's total bet: it ends as it was or as the memento holds it, and the reply reports it |
| `BettingFacts.RaiseUnsaved` | service/gameservice.go:252-256 | a raise gives the same result whatever the store would answer |
| `BettingFacts.RaiseLeads` | service/gameservice.go:252-256 | an accepted raise makes the bettor bet leader, sets the table's bet to the bettor's, and passes the turn to a ready player at another seat, named in the reply |
| `BettingFacts.EntityKeepsUnsavedState` | service/gameservice.go:262-273 | in the entity version a failed save leaves the state a good save leaves, only the reply becomes StoreError |
| `BettingFacts.FailedSaveRollsBack` | service/game/gameservice.go:262-284 | elsewhere a failed save puts the bettor and the game back to their mementos; at a round end the reply still says the round ended, otherwise StoreError |
| `BettingFacts.LastSeatBetPanics` | service/gameservice.go:222 | once the turn reaches the last seat every fold and every accepted bet panics |
| `Service.Announced` | service/gameservice.go:148-193 | the announced street is exactly one after the table's; nothing is announced after GameEnd or at the river before its round ends |
| `Service.StreetsInOrder` | service/gameservice.go:148-163 | the table's street stays put unless the round ended, and then moves on by exactly one street until GameEnd |
| `Service.Names` | service/gameservice.go:178-184 | the response lists one nickname per winner, the k-th winner's at position k |
| `Service.NamesOf` | service/gameservice.go:178-184 | the loop over the winners collects exactly their nicknames in order |
| `Service.PayoutSpec` | service/gameservice.go:279-284 | the payout names winners and losers seated at the table and keeps every seat; only game/game.go fails, when the showdown has no player |
| `Service.SettleSpec` | service/gameservice.go:172-176 | the payout and the balance batch keep every seat of the table |
| `Service.LegacyPaid` | game/game.go:457-560 | game/game.go's payout never fails: a showdown without players or a failed batch is carried as the error with no winner |
| `Service.Settle` | service/gameservice.go:172-176 | on the game, the payout and the balance batch end as SettleSpec says: the winners' nicknames and the paid players, or the undone players and the ledger's error |
| `Service.Books` | service/gameservice.go:345-361 | a good batch keeps the paid players and reports the winners' nicknames; a failed one puts the winners and losers back to their mementos and reports LedgerError |
| `Service.EntityEnd` | service/gameservice.go:164-192 | the end of the hand stops the game at GameEnd, settles, and resets the table with a new full deck, as EntityEndSpec states |
| `Service.NextHand` | domain/entity/game.go:115-135 | InitGame removes the players who left, starts the others on a new hand, zeroes the bets, goes back to FreeFlop with a new full deck, and the last save decides the reply |
| `Service.ClearTable` | service/game/gameservice.go:177-186 | the players who left are removed and every bet cleared, as ClearSpec says; the deck and the memento stay |
| `Service.ClearBets` | service/game/gameservice.go:183-186 | every player's current bet and both table bets become zero; nothing else changes |
| `Service.ServiceEnd` | service/game/gameservice.go:156-191 | the end of the hand in service/game: GameEnd, settlement, clearing and the last save, as ServiceEndSpec states; the deck stays |
| `Service.LegacyPay` | game/game.go:216-227 | on the game, the payout of game/game.go never fails and ends as LegacyPaid says |
| `Service.LegacyBooks` | game/game.go:473-489 | a good batch keeps the paid players and names the winners; a failed one restores the mementos, names no winner and reports LedgerError |
| `Service.LegacyEnd` | game/game.go:209-246 | the end of the hand in game/game.go runs every step and carries the last store error in the response, as LegacyEndSpec states |
| `Service.Bet` | service/gameservice.go:127-195 | Bet does what BetSpec says for each of the three versions; the deck it leaves is the old one, the memento's, or a new full deck |
| `Service.BetSpec` | service/gameservice.go:127-195 | a bet handleBet refuses ends with handleBet's error and state; a successful response carries handleBet's reply |
| `Service.StreetSpec` | service/gameservice.go:140-194 | the response carries the reply and the announced street; outside the end of the river round the call succeeds, keeps the players and only moves the street as NextStreet says |
| `Service.EntityEndSpec` | service/gameservice.go:164-192 | unless it panics the game is left not started; on success the reply is kept, the table is back at FreeFlop with the new deck and both table bets zeroed (a failure describes the in-memory copy Bet then drops) |
| `Service.NextHandSpec` | domain/entity/game.go:115-135 | unless it panics: FreeFlop, not started, the new deck, both table bets zeroed and as many players gone as had left; success exactly when the last save goes through, naming the winners |
| `Service.ClearSpec` | service/game/gameservice.go:177-186 | never an error; unless it panics, as many players gone as had left, every current bet and both table bets zeroed, and the street kept |
| `Service.ServiceEndSpec` | service/game/gameservice.go:156-191 | unless it panics the game is at GameEnd; on success the reply is kept and both table bets are zeroed |
| `Service.LegacyEndSpec` | game/game.go:209-246 | never an error, only a panic or a response; a response keeps the reply, with the game at GameEnd and both table bets zeroed |
| `Service.AfterBet` | game/game.go:193-247 | after handleBet the response announces the next street, the table moves on only at a round end, and the river's round end ends the hand |
| `Admission.ReadySpec` | service/gameservice.go:103-125 | HandleReady keeps the table's size and the mementos' size in every version |
| `Admission.ReadyAt` | game/game.go:701-710 | once the player is found, the flag is set and the table and mementos keep their size |
| `Admission.RefusedReadyChangesNothing` | game/game.go:691-699 | a request refused for a started game or an unknown nickname changes nothing; the service versions check the start first, game/game.go the nickname first |
| `Admission.ReadySetsOneFlag` | service/game/gameservice.go:94-117 | an accepted request exists exactly for a seated nickname, sets only that seat's flag, and repeating it changes nothing more |
| `Admission.FailedReadySave` | game/game.go:703-706 | a failed save keeps the new flag in the service versions and undoes the player in game/game.go; no memento changes |
| `Admission.MarkReady` | service/gameservice.go:118 | only the found seat's ready flag changes |
| `Admission.UndoPlayer` | game/game.go:704 | the seat goes back to its memento; nothing else changes |
| `Admission.RememberPlayer` | game/game.go:708 | only that seat's memento becomes the seat's state |
| `Admission.HandleReady` | game/game.go:691-711 | HandleReady on the game, in all three versions, does what ReadySpec says to the players, their mementos and the reply |
| `Admission.ReadyPlayer` | game/game.go:701-710 | the flag, the save, and the undo or memento that follows, as ReadyAt says |
| `Admission.DealtReply` | game/game.go:108-113 | dealing cards changes no nickname, so the start response is the same before and after the deal |
| `Admission.LegacyDeal` | game/game.go:358-378 | the players in the hand take two cards each from the top of the deck, which shrinks by that many; too few cards panic; a failed save puts those players and the game back to their mementos |
| `Admission.DealRollBack` | game/game.go:358-378 | the players in the hand go back to their mementos and the game to its own |
| `Admission.StartedGame` | game/game.go:87-115 | a start succeeds exactly when the seats are assigned, the deck suffices and both writes succeed; the game is then started, the dealt players hold two more cards, at least two players are ready, and with more than two players the first player and both blinds are ready players |
| `Admission.FailedStartSaveKeepsCards` | game/game.go:101-106 | a failed save after the deal restores the game's memento while the players keep the cards just dealt |
| `Admission.Start` | game/game.go:87-115 | Start does what StartSpec says; the deck it dealt from loses the dealt cards |
| `Admission.StartSpec` | game/game.go:87-115 | LackOfPlayers exactly with fewer than two players, NotEnoughPlayersReady exactly with fewer than two ready; those errors leave the players and put the game back to its memento |
| `Admission.DealSpec` | game/game.go:95-114 | too few cards for the players in the hand panic; every error is StoreError with the game at its memento and the seats kept; success needs both writes and starts the game |
| `Admission.DealAndSave` | game/game.go:95-114 | once seats are assigned, the deal, the start flag, the save and the response go as DealSpec says |
| `Admission.Announce` | game/game.go:101-114 | the game is started and the response names the ready players and the seats, or a failed save undoes the game and reports StoreError |
| `Admission.JoinedPlayerFound` | game/game.go:713-724 | a new nickname is found, after joining, in the new last seat |
| `Admission.JoinKeepsNamesUnique` | game/game.go:727-731 | the duplicate check keeps the nicknames at the table unique |
| `Admission.AddPlayer` | game/game.go:726-747 | a duplicate nickname and a table of more than RoomLimit players are refused unchanged; otherwise the player joins last, and the game is remembered after a good save or rolled back to its memento after a failed one |
| `Rooms.LeaveBeforeStart` | gameroom/gameroom.go:68-73 | before the start, leaving takes out exactly the player with the nickname (as a multiset too), keeps the others in order, and leaves nobody with that nickname |
| `Rooms.LeaveSpec` | gameroom/gameroom.go:62-79 | leaving succeeds exactly when a player has the nickname, else NoPlayerExists with nothing changed; one seat fewer before the start, as many during a game |
| `Rooms.LeaveDuringGame` | gameroom/gameroom.go:75-78 | during a game, leaving only marks that player as left; the seats and everybody else stay, and the player is still found |
| `Rooms.GameRoom.constructor` | gameroom/gameroom.go:28-44 | a new room keeps its id, name and host, holds RoomLimit as its limit and wraps the given game |
| `Rooms.GameRoom.StartGame` | gameroom/gameroom.go:46-48 | starting the room starts its game exactly as game/game.go's Start does |
| `Rooms.GameRoom.Bet` | gameroom/gameroom.go:50-52 | a bet in the room is game/game.go's Bet on its game |
| `Rooms.GameRoom.AddPlayer` | gameroom/gameroom.go:54-56 | joining the room is game/game.go's AddPlayer on its game |
| `Rooms.GameRoom.FindPlayer` | gameroom/gameroom.go:58-60 | the game's first player with the nickname, or null when there is none |
| `Rooms.GameRoom.LeavePlayer` | gameroom/gameroom.go:62-79 | leaving does what LeaveSpec says, and before the start the remaining player objects are the old ones in the old order |
| `Rooms.GameRoom.MarkLeft` | gameroom/gameroom.go:77 | only that player's left flag changes |
| `Rooms.GameRoom.RemovePlayer` | gameroom/gameroom.go:81-93 | the first seat with the nickname is taken out; without one the slice expression panics and nothing changes |
| `Rooms.GameRoom.SeatOf` | gameroom/gameroom.go:82-88 | the search loop returns the first seat with the nickname, or -1 |

## Left out

- **The stores.** Redis, Postgres and their JSON encoding are not modelled:
  `saveGame`, `setRedis`, `getRedis`, `GetGame` and the repositories.
  - Each write is a boolean parameter saying whether it succeeded.
  - `getRedis` is taken as a read that changes nothing.
  - The stored copy of a game is not modelled. So the model cannot show that
    the entity and service versions never store the street they move to
    after a round (the last save comes before `Bet` changes `Status`).
- **Outside the engine.** Not modelled:
  - the HTTP and WebSocket handlers, the chat, authentication and gRPC
    services;
  - `gamerooms/gamerooms.go` and `main.go`.
  They are I/O, concurrency and foreign calls.
- **Randomness.** `rand.Seed` and `rand.Shuffle` are not modelled. A
  shuffle is a sequence of swap picks given as a parameter. The model keeps
  only the fact that the deck stays a permutation of the 52 cards.
- **Room ids.** The uuid of `NewGameRoom` is the parameter `id` of
  `Rooms.GameRoom.constructor`. The uuid error path is not modelled.
- **`New` of game/game.go.** It is not modelled: a room is built around a
  given game. `New` starts with two nil seats
  (`make([]*player.Player, 2)`), which the first `FindPlayer` would
  dereference.
- **The test files.** game/game_test.go targets an older API. Only its
  isValidBet and NoPlayersLeft expectations are modelled
  (`Bets.IsValidBetExamples`, `TurnOrder.EveryoneOutPanics`).
- TurnOrder.ReadyPlayerIdx: requires `idx < len(players)`, as the loop is only correct then. The calls with `idx+1` go through `TurnOrder.ReadyFrom`, which models the read past the end as a panic.
- Deck.Deck.GetCard: requires a non-empty deck, since `(*d)[len(*d)-1]` needs one. The callers that can run the deck out (`Games.Game.GiveCardsToPlayers`, `Admission.LegacyDeal`) check the size and report the panic themselves.
- HandsRankExamples.SampleBestFive: states the evaluation of the winning five of the sample hand, not the walk over all 21 subsets that finds it. `HandsRankExamples.SampleSort` covers the sort of that five.
- Sorting.SortBy: `sort.Slice` is not stable in general. The model fixes the insertion sort that Go 1.19 and later (pdqsort) run on slices of at most 12 elements, which covers every slice the engine sorts (five cards, at most eight players). `Sorting.SortedKeysDetermined` states what holds for any sort.
- Games.SortSeats: Go 1.18 and earlier run a Shell pass of gap 6 before the insertion sort on slices of 7 to 12 elements. With seven or eight players, equal total bets may then come out in another order than the model's. Five-card sorts are not affected.
- Payout.Distribute: states that the payout keeps the seats and never fails, and states the exact amounts only for a sole winner, equal bets and the counterexamples. Pot conservation does not hold for the code as written (see the side-pot defect).
- Service.Bet: the deck it leaves is one of three (the old one, the memento's, or a new full deck). Which one is fixed by the spec functions, but the cards in it are stated only for the new deck.
- Rooms.GameRoom.constructor: the room's own `RoomLimit` (gameroom/gameroom.go:13) and game/game.go's (game/game.go:22) are both 7; the model uses one constant, `Admission.RoomLimit`.
