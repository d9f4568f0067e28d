# Shedding card game rules engine — Dafny model

This project models the game-state engine of a turn-based shedding card game. One human and several
computer players take turns discarding cards. A card matches the top of the discard pile when it has the
same rank or the same suit, and a multi-card play is legal when its cards can be put in an order where each
one matches the card before it. A player who cannot play draws; once the draw pile runs dry it is refilled
from the discard pile below its top card. The game ends when the round clock runs out or, once nothing can be
drawn any more, when some player has shed every card.

The model covers five parts of the source:

- the constants: suits, ranks, rank values, round lengths (`GameConstants`);
- the card and deck helpers (`GameHelper`, `ChainSearch`, `BestChain`):
  - building the 52-card deck;
  - the Fisher–Yates shuffle;
  - dealing;
  - hand value;
  - the match rule;
  - `orderChain`, the backtracking search for a legal order of a multi-card play;
  - `canAddToChain`;
  - `buildBestChain`, the exhaustive search for the longest chain a hand can play;
- the turn, draw and win helpers of the state machine (`TurnEngine`):
  - `advanceTurn`;
  - `canDrawCards`;
  - the two winner selectors;
  - the pure context transforms `applyPlayCards` and `applyDrawCard`, including recycling the discard pile;
- the snapshot persistence rules (`SnapshotPersistence`):
  - which snapshots are saved;
  - how a saved snapshot is sanitized so that it resumes paused;
  - which stored payloads are accepted on load;
- the phase machine (`GameMachine`):
  - the phases NotStarted, Playing (timer Running or Paused) and GameOver;
  - the guarded tick;
  - the root-level roster and round-time events.

Everything is written as immutable datatypes and pure functions over sequences and maps. The one exception
is `createDeck`, which is a method with the source's nested loops.

Files:

| file | module | models |
|---|---|---|
| wrappers.dfy | Wrappers | `Option` (`undefined`/`null` results) |
| seqs.dfy | Seqs | order-preserving filter, subsequence, removal at a position, multiset helpers |
| game_constants.dfy | GameConstants | `src/helpers/game.constants.ts` |
| game_helper.dfy | GameHelper | `createDeck`, `shuffle`, `dealCards`, `handValue`, `canPlayCard`, `getPlayableCards`, chains |
| chain_search.dfy | ChainSearch | `orderChain`, `canAddToChain` |
| best_chain.dfy | BestChain | `buildBestChain` |
| turn_engine.dfy | TurnEngine | `src/stateMachine/stateMachine.helper.ts`, lines 10-188 |
| snapshot_persistence.dfy | SnapshotPersistence | `src/stateMachine/stateMachine.helper.ts`, lines 194-339 |
| game_machine.dfy | GameMachine | `src/stateMachine/index.ts` |

Modelling choices:

- **Card ids are unique.** Cards are compared by id where the source compares by id: the `used` set of
  `orderChain`, and the `cardIds` filters of `applyPlayCards`. The properties that need unique ids take
  `DistinctIds` or `UniquePlayerIds` as a precondition.
- **Shuffle randomness is a parameter.** `Math.random` inside `shuffle` becomes a sequence `swaps` of chosen
  swap partners, with `swaps[i]` in `[0, i]`. `applyDrawCard` takes such a sequence for the case where it
  recycles the discard pile.
- **The helpers read a current player.** They index `players[currentPlayerIndex]`, and the model's helper
  contracts require that index to name a seat. `applyPlayCards` and `currentPlayer`'s other callers fail on
  any other index. `applyDrawCard` does not always fail there (see "Left out"), so its model covers only a
  valid index.
- **Every player has a controller, human or CPU.** The source compares a string `controller` field, which
  may be missing. A player without one, whose id is not `humanPlayerId`, is neither human nor CPU in the
  source. The model does not represent such a player.
- **The helpers' context is the fields they read:**
  - `players` (id, hand, controller);
  - `currentPlayerIndex`;
  - `drawPile` (front = next card);
  - `discardPile` (back = top);
  - `selectedCardIds`;
  - `humanPlayerId`;
  - `winnerId`.

  The transforms return the whole context with the fields the source's partial result names replaced. This
  is what an xstate `assign` of that partial result does.
- **The phase machine keeps the two-field context of `index.ts`.** That file's context has only `time` and
  `players`, and its `Card` is `unknown`, so the machine is generic in the card type.
- **Snapshots are JSON objects** (`map<string, Json>`). JSON numbers are integers.
- **Storage is the parsed stored value.** None stands for "nothing stored, storage unavailable or
  unparseable". Persisting returns the storage action, and the clock reading is a parameter.
- **`applyDrawCard` appends the drawn card to the end of the hand**, as the code does. Some descriptions of
  the game put it at the front.
- **`findEmptyHandWinner` falls back to the lowest hand value when no hand is empty.** Its doc comment says
  the fallback is for "multiple empty" hands, but the code falls back only when `find` fails, that is, when
  no hand is empty. The model follows the code. `EmptyHandWinnerIsLowest` shows that both branches pick the
  same player anyway.
- **`DEFAULT_ROUND_TIME` is the "1m" entry, 60000 ms.** `index.ts` imports `SUPPORTED_GAME_TIMES` from
  `game.helper.ts`, which does not export it. The model reads the value from the constants module.

## Model

| member | source | states |
|---|---|---|
| GameConstants.RankValue | src/helpers/game.constants.ts:21-35 | every rank value lies between 1 and 13 |
| GameConstants.RankIndex | src/helpers/game.constants.ts:10-12 | a rank sits in RANKS at the position one below its value |
| GameConstants.SuitIndex | src/helpers/game.constants.ts:7 | every suit appears in SUITS, at its index |
| GameConstants.SuitsAreDistinct | src/helpers/game.constants.ts:7 | SUITS holds 4 pairwise distinct suits, covering every suit |
| GameConstants.RanksAreDistinct | src/helpers/game.constants.ts:10-12 | RANKS holds 13 pairwise distinct ranks A..K, each covered, and maps in order to values 1..13 |
| GameConstants.RankValuesIncrease | src/helpers/game.constants.ts:21-35 | RANK_VALUES is injective and strictly increasing along RANKS |
| GameConstants.NamesAreDistinct | src/helpers/game.constants.ts:7-12 | suit strings are pairwise distinct, rank strings too, and no rank string contains '-' |
| GameConstants.ConstantsAreWellFormed | src/helpers/game.constants.ts:1-5 | the round lengths are exactly 1m/3m/5m = 60000/180000/300000 ms, all positive; also TICK_MS > 0 and PLAYER_COLORS has 6 entries (lines 51-63) |
| GameHelper.CardIdInjective | src/helpers/game.helper.ts:8 | two cards have the same `${rank}-${suit}` id exactly when they have the same rank and suit |
| GameHelper.CreateDeck | src/helpers/game.helper.ts:4-12 | 52 cards with pairwise distinct ids, suit-major in SUITS then RANKS order (the card for (s, r) at 13·index(s)+index(r)), each (suit, rank) pair exactly once |
| GameHelper.Swap | src/helpers/game.helper.ts:19 | the two positions trade places, every other position and the multiset are unchanged |
| GameHelper.Shuffle | src/helpers/game.helper.ts:15-22 | for any swap choices with j in [0, i], the result is a permutation of the input of the same length |
| GameHelper.ShuffleIdentity | src/helpers/game.helper.ts:15-22 | if every choice picks the element itself, the shuffle returns its input |
| GameHelper.DealCards | src/helpers/game.helper.ts:25-27 | dealt ++ rest equals the deck, and exactly min(max(count, 0), |deck|) cards are dealt |
| GameHelper.HandValue | src/helpers/game.helper.ts:30-32 | the value of a hand lies between its size and 13 times its size (0 for an empty hand) |
| GameHelper.HandValueAppend | src/helpers/game.helper.ts:30-32 | hand value is additive over concatenation |
| GameHelper.HandValueRemove | src/helpers/game.helper.ts:30-32 | removing one card lowers the value by exactly that card's rank value |
| GameHelper.HandValuePermutation | src/helpers/game.helper.ts:30-32 | hands holding the same cards in any order have the same value |
| GameHelper.CanPlayCard | src/helpers/game.helper.ts:35-38 | anything matches an empty pile; a card always matches itself; a non-matching card differs from the top in both rank and suit |
| GameHelper.MatchIsSymmetric | src/helpers/game.helper.ts:35-38 | a matches b exactly when b matches a |
| GameHelper.GetPlayableCards | src/helpers/game.helper.ts:41-46 | an order-preserving subsequence of the hand holding every card that can be played on the top and only such cards |
| GameHelper.IsChainPairwise | src/helpers/game.helper.ts:48-52 | a sequence is a chain from the top exactly when its first card matches the top and each card matches its predecessor |
| GameHelper.IsChainAppend | src/helpers/game.helper.ts:66-78 | extending a chain by one card keeps it a chain exactly when the card matches the chain's last card (or the top) |
| GameHelper.DistinctFillIsPermutation | src/helpers/game.helper.ts:63-80 | a distinct-id sequence drawn from distinct-id cards that is as long as the cards is a permutation of them |
| ChainSearch.OrderChain | src/helpers/game.helper.ts:53-81 | no cards give the empty chain; a found order uses exactly as many cards as were given |
| ChainSearch.CanAddToChain | src/helpers/game.helper.ts:87-93 | with nothing selected yet, a candidate can be added exactly when it matches the top |
| ChainSearch.SearchSound | src/helpers/game.helper.ts:66-78 | any result of the depth-first search extends the partial chain to a chain from the top that is a permutation of the cards |
| ChainSearch.OrderChainSound | src/helpers/game.helper.ts:53-81 | on no cards the result is the empty chain; any result is a permutation of the cards that forms a chain from the top |
| ChainSearch.SearchComplete | src/helpers/game.helper.ts:66-78 | if the partial chain can be completed to a chain using all cards, the search finds a completion |
| ChainSearch.OrderChainComplete | src/helpers/game.helper.ts:53-81 | with distinct ids, if any permutation of the cards is a chain from the top, orderChain succeeds |
| ChainSearch.OrderChainCorrect | src/helpers/game.helper.ts:48-81 | with distinct ids, orderChain succeeds exactly when some permutation of the cards is a chain from the top |
| ChainSearch.CanAddToChainCorrect | src/helpers/game.helper.ts:87-93 | canAddToChain holds exactly when selection ++ [candidate] can be arranged into a chain from the top |
| ChainSearch.SameSuitOrders | src/helpers/game.helper.ts:53-81 | cards all of the top card's suit can always be ordered |
| ChainSearch.TwoCardsNeverChain | src/helpers/game.helper.ts:48-52 | neither order of {2♥, 3♠} is a chain from 2♣ |
| ChainSearch.NoChainExample | src/helpers/game.helper.ts:53-81 | orderChain({2♥, 3♠}, 2♣) fails: completeness has a real negative case |
| BestChain.BuildBestChain | src/helpers/game.helper.ts:96-124 | the chain found starts from the top card, uses each hand position at most once, and so is never longer than the hand |
| BestChain.ExploreGrows | src/helpers/game.helper.ts:108-111 | the recorded best never gets shorter and is at least as long as the current chain |
| BestChain.ExploreSound | src/helpers/game.helper.ts:108-120 | every chain the search records is a chain from the top made of hand cards |
| BestChain.ExploreMaximal | src/helpers/game.helper.ts:108-120 | every chain from the hand that extends the current chain is no longer than the result |
| BestChain.BuildBestChainCorrect | src/helpers/game.helper.ts:96-124 | the result is a chain from the top drawn from distinct hand positions, no longer than the hand, and no chain from the hand is longer |
| BestChain.NoPlayableNoChain | src/helpers/game.helper.ts:103-104 | with no playable card, the only chain from the hand is the empty one |
| BestChain.BuildBestChainEmpty | src/helpers/game.helper.ts:103-104 | the result is empty exactly when no card of the hand is playable |
| TurnEngine.CurrentPlayer | src/stateMachine/stateMachine.helper.ts:18-20 | the player at `currentPlayerIndex`, a seat the valid-index requirement guarantees exists: a member of the roster and, when ids are unique, the only seat carrying its id |
| TurnEngine.TopDiscard | src/stateMachine/stateMachine.helper.ts:10-12 | None exactly when the discard pile is empty, otherwise its last card |
| TurnEngine.CurrentPlayerIsHuman | src/stateMachine/stateMachine.helper.ts:26-29 | a human-controlled player, or the configured human player, is human; a player who is not human is CPU-controlled |
| TurnEngine.CurrentPlayableCards | src/stateMachine/stateMachine.helper.ts:44-47 | an order-preserving subsequence of the current hand holding exactly the cards that match the discard top |
| TurnEngine.CurrentPlayerIsCpu | src/stateMachine/stateMachine.helper.ts:26-38 | the CPU test is exactly the negation of the human test: the two are exclusive and exhaustive |
| TurnEngine.PickIds | src/stateMachine/stateMachine.helper.ts:124 | the played cards: an order-preserving subsequence of the hand holding exactly its cards with listed ids |
| TurnEngine.DropIds | src/stateMachine/stateMachine.helper.ts:125 | the remaining cards: an order-preserving subsequence of the hand holding exactly its cards with unlisted ids |
| TurnEngine.PickDropPartition | src/stateMachine/stateMachine.helper.ts:124-125 | played and remaining cards together are exactly the hand (as a multiset) |
| TurnEngine.SelectedCards | src/stateMachine/stateMachine.helper.ts:53-56 | an order-preserving subsequence of the current hand holding exactly the cards whose ids are selected |
| TurnEngine.CanDrawCards | src/stateMachine/stateMachine.helper.ts:62-67 | true exactly when the draw pile is non-empty or the discard pile has more than one card |
| TurnEngine.AdvanceTurn | src/stateMachine/stateMachine.helper.ts:75-83 | the result is -1 or a seat index |
| TurnEngine.ScanTurnSpec | src/stateMachine/stateMachine.helper.ts:77-82 | from offset i on, the scan finds the nearest later seat with cards, or -1 exactly when all remaining seats are empty |
| TurnEngine.AdvanceTurnSpec | src/stateMachine/stateMachine.helper.ts:75-83 | with a draw available, (cur+1) mod n; otherwise the first seat after cur (cur itself last) with a non-empty hand; -1 exactly when nothing can be drawn and all hands are empty |
| TurnEngine.NextIndex | src/stateMachine/stateMachine.helper.ts:141-142 | the stored index (advanceTurn, or the current index on -1) is a valid seat where the turn passes by the rule above |
| TurnEngine.AdvanceTurnSkipsEmptyHand | src/stateMachine/stateMachine.helper.ts:75-83 | with nothing to draw and seat 0 empty, the turn passes from seat 0 to seat 1 |
| TurnEngine.IsDrawPileEmptyWithWinner | src/stateMachine/stateMachine.helper.ts:90-93 | the trigger holds only when nothing can be drawn and there is at least one player |
| TurnEngine.StalemateTrigger | src/stateMachine/stateMachine.helper.ts:90-93 | the stalemate trigger holds exactly when nothing can be drawn and some hand is empty |
| TurnEngine.FirstEmptyHand | src/stateMachine/stateMachine.helper.ts:100 | the found seat has an empty hand and every earlier one holds cards; None means every hand holds cards |
| TurnEngine.LowestFrom | src/stateMachine/stateMachine.helper.ts:109-112 | the loop ends on the earliest seat of minimal hand value |
| TurnEngine.FindLowestHandPlayer | src/stateMachine/stateMachine.helper.ts:107-114 | None exactly when there are no players; otherwise the id of the earliest player with minimal hand value |
| TurnEngine.EarliestLowestUnique | src/stateMachine/stateMachine.helper.ts:107-114 | the earliest minimal seat is unique |
| TurnEngine.FindEmptyHandWinner | src/stateMachine/stateMachine.helper.ts:99-102 | None exactly when there are no players; otherwise the id of some seated player |
| TurnEngine.EmptyHandWinnerIsLowest | src/stateMachine/stateMachine.helper.ts:99-114 | findEmptyHandWinner and findLowestHandPlayer always agree |
| TurnEngine.StalemateWinnerHasEmptyHand | src/stateMachine/stateMachine.helper.ts:90-102 | when the stalemate trigger holds, the winner is the first empty-handed player |
| TurnEngine.HandsOfUpdate | src/stateMachine/stateMachine.helper.ts:129-131 | replacing one seat's hand changes the cards held in hands by exactly the old and the new hand |
| TurnEngine.SetHandTouchesOneSeat | src/stateMachine/stateMachine.helper.ts:129-131 | with unique ids, replacing a hand by id changes exactly that seat |
| TurnEngine.AppendToHandTouchesOneSeat | src/stateMachine/stateMachine.helper.ts:173-175 | with unique ids, appending to a hand by id changes exactly that seat |
| TurnEngine.ApplyPlayCards | src/stateMachine/stateMachine.helper.ts:121-146 | the resulting index is a valid seat |
| TurnEngine.PlayedSuffixIsPermutation | src/stateMachine/stateMachine.helper.ts:127-133 | the discard pile keeps its old cards as a prefix and gains a permutation of the played cards, ordered or not |
| TurnEngine.ApplyPlayCardsShape | src/stateMachine/stateMachine.helper.ts:121-146 | only the current seat's hand changes, to the remaining cards; the draw pile is unchanged; selection and winner are cleared |
| TurnEngine.ApplyPlayCardsEffect | src/stateMachine/stateMachine.helper.ts:121-146 | the new hand is the old hand minus the listed ids in order; suffix + new hand = old hand; other seats, ids, controllers and the draw pile are unchanged; ids stay unique |
| TurnEngine.ApplyPlayCardsConserves | src/stateMachine/stateMachine.helper.ts:121-146 | the multiset of draw pile + discard pile + all hands is unchanged |
| TurnEngine.ApplyPlayCardsPlaysChain | src/stateMachine/stateMachine.helper.ts:127-133 | if the played cards (distinct ids) can be ordered into a chain from the old top, the discard suffix is such a chain and its last card is the new top |
| TurnEngine.ApplyPlayCardsPassesTurn | src/stateMachine/stateMachine.helper.ts:135-142 | the turn passes from the seat that played, judged on the piles and hands after the play; with a draw available, to the next seat |
| TurnEngine.RefillKeepsCards | src/stateMachine/stateMachine.helper.ts:157-161 | recycling loses and adds no card, keeps the top, and leaves something to draw exactly when canDrawCards held |
| TurnEngine.ApplyDrawCard | src/stateMachine/stateMachine.helper.ts:152-188 | the resulting index is a valid seat |
| TurnEngine.ApplyDrawCardNothingToDraw | src/stateMachine/stateMachine.helper.ts:163-170 | with nothing to draw, only the index and the selection change |
| TurnEngine.ApplyDrawCardEffect | src/stateMachine/stateMachine.helper.ts:152-188 | exactly the former front of the (refilled) draw pile goes to the end of the current hand; other seats are unchanged; a recycle leaves [old top] as discard pile and a permutation of the rest as draw pile; winner untouched |
| TurnEngine.ApplyDrawCardConserves | src/stateMachine/stateMachine.helper.ts:152-188 | the multiset of draw pile + discard pile + all hands is unchanged |
| TurnEngine.ApplyDrawCardDrawsIffCanDraw | src/stateMachine/stateMachine.helper.ts:152-188 | the current hand grows by one card exactly when canDrawCards holds, and otherwise stays the same size |
| TurnEngine.ApplyDrawCardPassesTurn | src/stateMachine/stateMachine.helper.ts:163-186 | the turn passes from the seat that drew, judged on the state after the draw |
| SnapshotPersistence.LooksLikePlaying | src/stateMachine/stateMachine.helper.ts:194-200 | a snapshot that looks like playing has a state value, and it is neither "gameOver" nor "lobby" |
| SnapshotPersistence.ShouldPersist | src/stateMachine/stateMachine.helper.ts:306-317 | a snapshot worth saving is never "gameOver"; a lobby is worth saving only with an object context |
| SnapshotPersistence.PlayingIsPersisted | src/stateMachine/stateMachine.helper.ts:306-317 | a snapshot that looks like playing is always worth saving; a gameOver snapshot never is, and never looks like playing |
| SnapshotPersistence.Sanitize | src/stateMachine/stateMachine.helper.ts:233-276 | keeps the top-level keys and every field but context and value; an object context gets playPageMounted = false and selectedCardIds = [] and keeps the rest; an object value.playing gets timer and turns "paused" and keeps the rest; otherwise nothing changes |
| SnapshotPersistence.SanitizeRestorable | src/stateMachine/stateMachine.helper.ts:233-276 | sanitized snapshots are in restored shape, and a snapshot in restored shape is left as it is |
| SnapshotPersistence.SanitizeIdempotent | src/stateMachine/stateMachine.helper.ts:233-276 | sanitizing twice equals sanitizing once |
| SnapshotPersistence.SanitizeKeepsClassification | src/stateMachine/stateMachine.helper.ts:194-200 | sanitizing changes neither snapshotLooksLikePlaying nor shouldPersistSnapshot |
| SnapshotPersistence.PersistSnapshot | src/stateMachine/stateMachine.helper.ts:323-339 | storage is cleared exactly when the snapshot is not worth saving; otherwise the stored object has version 1 and savedAt = the clock reading, and reading it back yields the sanitized snapshot |
| SnapshotPersistence.PersistedSnapshot | src/stateMachine/stateMachine.helper.ts:205-216 | a stored value is accepted exactly when it is an object with version 1 and a truthy snapshot field, and the result is that snapshot field |
| SnapshotPersistence.LoadPersistedSnapshot | src/stateMachine/stateMachine.helper.ts:281-300 | discarded exactly when the accepted snapshot is an object whose value is "gameOver"; resumed, with the sanitized stored snapshot, exactly when it is an object that is not "gameOver" and looks like playing; a resumed snapshot looks like playing and is worth saving |
| SnapshotPersistence.LoadedSnapshotIsRestorable | src/stateMachine/stateMachine.helper.ts:281-300 | a resumed snapshot is in restored shape: sanitizing it again changes nothing |
| SnapshotPersistence.LoadRejectsOtherVersions | src/stateMachine/stateMachine.helper.ts:211 | a stored payload with another version is never resumed |
| SnapshotPersistence.PersistLoadRoundTrip | src/stateMachine/stateMachine.helper.ts:281-339 | saving a running game stores a payload, and loading that payload resumes the sanitized snapshot, whatever the save time |
| SnapshotPersistence.GameOverIsNeverResumed | src/stateMachine/stateMachine.helper.ts:287-291 | a finished game clears storage when saved; it is discarded when loaded, from the payload persistSnapshot writes or from any version-1 object holding it as snapshot |
| GameMachine.CreatePlayer | src/stateMachine/index.ts:41-46 | a new player has the given id, score 0 and empty hand and deck |
| GameMachine.AddPlayerTo | src/stateMachine/index.ts:71-80 | an id already seated leaves the roster unchanged; otherwise the new player is appended; ids stay unique |
| GameMachine.RemovePlayerFrom | src/stateMachine/index.ts:81-86 | an order-preserving subsequence without the id that keeps every other player |
| GameMachine.RemoveAbsentPlayer | src/stateMachine/index.ts:81-86 | removing an id nobody has changes nothing |
| GameMachine.RemoveSeatedPlayer | src/stateMachine/index.ts:81-86 | with unique ids, removing the id of seat k takes out exactly seat k |
| GameMachine.RemoveKeepsUniqueIds | src/stateMachine/index.ts:81-86 | removal keeps the ids unique |
| GameMachine.FieldEditsKeepRoster | src/stateMachine/index.ts:87-110 | setScore/setHand/setDeck change only the named field of the matching players; the roster, other seats and other fields are unchanged; an absent id changes nothing |
| GameMachine.EnterNotStarted | src/stateMachine/index.ts:113-119 | entering NotStarted sets the clock to 0 and keeps the round length and the players |
| GameMachine.Initial | src/stateMachine/index.ts:54-61 | the machine starts in NotStarted with no players, clock 0 and a 60000 ms round |
| GameMachine.Step | src/stateMachine/index.ts:62-192 | one event either keeps the phase or moves it along an edge of the phase graph |
| GameMachine.StepFollowsPhaseGraph | src/stateMachine/index.ts:112-192 | every phase change follows an edge of the phase graph (start, pause, resume, end, tick, retry); every unguarded edge is taken; root events never change the phase |
| GameMachine.TickSpec | src/stateMachine/index.ts:137-174 | a tick while running adds its time to the clock and ends the game exactly when the clock reaches the round length; in any other state it is ignored |
| GameMachine.ClockOnlyMovesOnTicks | src/stateMachine/index.ts:62-192 | only a running tick or a retry moves the clock; only setRoundTime changes the round length |
| GameMachine.SetRoundTimeOnlyRoundTime | src/stateMachine/index.ts:63-70 | setRoundTime changes the round length and nothing else, in any phase |
| GameMachine.RetryResets | src/stateMachine/index.ts:185-191 | retry from GameOver returns to NotStarted with clock 0, the same round length and the same players |
| GameMachine.StepKeepsInvariant | src/stateMachine/index.ts:62-192 | every event keeps "clock 0 in NotStarted" and unique player ids |
| GameMachine.RunKeepsInvariant | src/stateMachine/index.ts:62-192 | the invariant holds after any queue of events |
| GameMachine.ReachableStatesAreValid | src/stateMachine/index.ts:48-193 | every state reachable from the initial one satisfies the invariant |
| GameMachine.FullRoundEndsGame | src/stateMachine/index.ts:120-165 | start then a full-round tick reaches GameOver; start, pause, then the same tick stays paused |

## Left out

- `assignPlayerColors` (src/helpers/game.helper.ts:126-137): random and cosmetic.
- `SUIT_SYMBOLS` and `SUIT_COLORS`: rendering only.
- All `.tsx` components, hooks and routing: rendering and input plumbing.
- `src/stateMachine/selectors.ts` is not part of this model: it only reads xstate's `state.matches`.
- localStorage I/O, `JSON.parse`/`JSON.stringify`, `Date.now` and the swallowed exceptions of the storage
  functions:
  - storage is the parsed stored value, and persisting returns the storage action;
  - the clock reading is a parameter;
  - `canUseLocalStorage`, `clearPersistedGame` and `hasPersistedGame` are not modelled.
- `stateMachine.constants.ts` (storage key, throttle) is not part of this model.
- `Math.random` in `shuffle`: replaced by supplied swap choices. Shuffle uniformity is a probabilistic
  property and is not stated.
- `dealCards` mutates the deck in place. The model returns the dealt cards and the rest of the deck as a pair.
- `Sanitize` works on snapshots that are JSON objects. The source also spreads a non-object snapshot such
  as an array (`{...snapshot}`), which the model does not represent. Snapshots the machine produces are
  always objects.
- The xstate runtime is not modelled:
  - actor creation;
  - the scheduling of parallel regions (the players region has the single state Active);
  - delayed and auto-play events.

  The machine is a pure step function over one event at a time.
- TurnEngine.ApplyDrawCard: the requirement of a valid current index excludes source behaviours.
  - With no players and nothing to draw, `applyDrawCard` reaches `advanceTurn` with n = 0, gets -1 and keeps
    the index.
  - With no players and a non-empty draw pile, it removes the front card and gives it to nobody, so that
    card leaves play.
  - With an index past the last seat and nothing to draw, it returns the next seat with a non-empty hand, or
    keeps the out-of-range index when every hand is empty (`advanceTurn` gives -1).
  - With an index past the last seat and a card to draw, it fails: the current player is undefined and
    reading its `id` throws.

  The model and its conservation property cover only contexts whose index names a seat.
- TurnEngine.AdvanceTurn: likewise requires a valid current index. The source returns -1 for an empty roster.
- The `?? DEFAULT_ROUND_TIME` fallback in the NotStarted entry action: the round length is always a number
  here, so the fallback never applies.
- JavaScript floating-point time values: tick lengths and clock readings are integer milliseconds.
- `GameHelper.Shuffle`: it states only that the result is a permutation of the input. Which permutation a
  given set of swap choices yields is not stated, except for the identity choices.
