# Old Maid game server: a Dafny model of the engine

The Old Maid server (`old-maid/server/index.js`) keeps a dictionary of game rooms. Clients connect over a WebSocket and send intents: `create_game`, `join_game`, `start_game`, `new_game`, `leave_game`, `discard_pairs` and `pick_card`. The server changes the rooms in response.

A room holds:
- an ordered roster of players, each with an id, a name, a hand of cards and a `finished` flag;
- a `started` flag and the seat whose turn it is (`currentTurn`);
- a `reverse` mode, in which holding the Joker at the end wins instead of loses;
- a `winner` and a `loser`.

The engine is built on card helpers:
- `createDeck` builds a 53-card deck;
- `shuffle` is a Fisher–Yates shuffle;
- `dealCards` deals near-equal hands;
- `findPairs` and `discardPairs` do pair counting and removal;
- `checkGameEnd` is the end-of-game rule;
- `getGameState` projects a room for the clients.

The model is split into these modules:

- `Wrappers` (wrappers.dfy): `Option`, `Result` and `Min`.
- `Cards` (cards.dfy):
  - the card, suit and rank types;
  - `CreateDeck`, specified by the reference deck `FullDeck`;
  - the in-place `Shuffle` on an array, and `ShuffleHand`, its use on a copy of a hand.
- `Deal` (deal.dfy): `DealCards`, proved against `DealtHand`. `DealtHand` is the block-then-remainder cut of the deck, and `Union` is the multiset of all hands.
- `Pairs` (pairs.dfy):
  - `DiscardPairs`, proved against the reference `Reduce`, which keeps a card unless it is one of the first two of a rank held at least twice;
  - `FindPairs`, proved against `PairList`. `PairList` follows JavaScript's key enumeration order for objects: integer-like keys '2'..'10' ascending, then the other keys in insertion order.
- `Text` (text.dfy): ECMAScript `trim`, string length in UTF-16 code units, and the game-id pattern `^[a-zA-Z0-9_-]+$`.
- `Table` (table.dfy):
  - the `Player` and `Game` entities;
  - `checkGameEnd` as `GameEnd`;
  - the two seat-scanning loops of `pick_card`: the skip-finished `while` and the do-while turn advance;
  - the `getGameState` projection.
- `Rooms` (rooms.dfy):
  - the room transitions for each intent, as functions on a `Game`;
  - the invariant `WellFormed`;
  - the class `Registry`. It owns `games: map<string, Game>` and has one method per intent. Each method returns `Failure(error)` with the room dictionary unchanged, for exactly the first check that fails. When every check passes it returns `Success(reply)`, with the new dictionary stated in full. `start_game` instead answers `Success(Ignored)` for a missing or started room.

`Math.random` is not modelled as a source of values. The shuffle is an arbitrary choice of swap partner, and every random id is a parameter.

Where the code and the intended game rules differ, the model follows the code:
- `discardPairs` drops only the first two cards of each rank per call. Four of a kind therefore leaves two (`Pairs.ReduceRankCount`, `Pairs.FourOfAKind`), and discarding is idempotent only when no rank is held four times (`Pairs.ReduceIdempotent`).
- `join_game` does not look at `started`.
- A random game id can overwrite an existing room.
- `discard_pairs` and `pick_card` check neither `started` nor a result already decided.
- The turn advance starts from `currentTurn`, not from the picker's seat.
- In reverse mode, a last player without the Joker leaves the result unset, but `checkGameEnd` still reports the game as over.
- `winner` and `loser` count only when set to a non-empty name, as in JavaScript's truthiness test.
- `start_game` never clears a `finished` flag; it only sets it.
- `join_game` stores the name untrimmed.

## Model

| member | source | states |
|---|---|---|
| Cards.DeckContents | old-maid/server/index.js:16-27 | The reference deck has 53 cards, each of the 52 suit/rank cards and the Joker exactly once, with the Joker last |
| Cards.DeckCard | old-maid/server/index.js:16-27 | A card occurs in the deck once if it is a suit/rank card or the Joker, and otherwise not at all |
| Cards.SuitRow | old-maid/server/index.js:21-23 | The inner loop yields one card of the suit for each rank, in rank order |
| Cards.CreateDeck | old-maid/server/index.js:16-27 | The nested suit/rank loops build exactly the reference deck: 53 cards, Joker at index 52, every card once |
| Cards.Shuffle | old-maid/server/index.js:29-35 | The in-place swap loop, with any choice of partner `j <= i`, leaves the array a permutation of its old contents |
| Cards.ShuffleHand | old-maid/server/index.js:29-35 | Shuffling a copy of a hand gives a hand of the same length and the same cards |
| Deal.DealtHand | old-maid/server/index.js:44-63 | Seat i's hand has the base count plus one exactly when i is below the remainder |
| Deal.DealtHandSize | old-maid/server/index.js:44-63 | Hand i holds floor(T/N) cards plus one exactly when i < T mod N |
| Deal.DealtRuns | old-maid/server/index.js:49-63 | Hand q is its block from the first loop followed by its single remainder card from the tail, and both runs lie inside the deck |
| Deal.UnionHas | old-maid/server/index.js:37-63 | Every hand's cards are contained in the union of all hands |
| Deal.UnionSingle | old-maid/server/index.js:37-63 | A card the hands hold once in total lies in exactly one hand |
| Deal.HandsUnion | old-maid/server/index.js:37-63 | The multiset union of the dealt hands is the deck: no card is lost or duplicated |
| Deal.TakeRun | old-maid/server/index.js:53-56 | The inner dealing loop takes exactly the `count` consecutive cards starting at the card index |
| Deal.DealBlocks | old-maid/server/index.js:52-57 | After the first loop every seat holds its block of floor(T/N) consecutive cards and the card index stands at the start of the tail |
| Deal.DealExtras | old-maid/server/index.js:60-63 | The second loop adds to each seat below T mod N one tail card, giving every seat its `DealtHand` |
| Deal.DealCards | old-maid/server/index.js:37-63 | Fails exactly when N < 2; otherwise returns N hands, hand i being DealtHand, whose union is the deck |
| Pairs.RankCountBySuits | old-maid/server/index.js:90-94 | The count of a rank is the sum of its four suited cards in the hand |
| Pairs.JokerCountPositive | old-maid/server/index.js:98 | A hand has a joker-suit card exactly when its joker count is positive |
| Pairs.JokerCountOfJoker | old-maid/server/index.js:98 | When every joker-suit card is the Joker, the joker count is the number of Jokers |
| Pairs.DropFirstPairs | old-maid/server/index.js:95-108 | Given the per-rank counts, the `used` loop keeps exactly the cards the reference discard `Reduce` keeps |
| Pairs.DiscardPairs | old-maid/server/index.js:89-109 | The two counting/`used` loops compute exactly the reference discard `Reduce` |
| Pairs.ReduceSubsequence | old-maid/server/index.js:95-108 | The discarded hand is an order-preserving subsequence of the input |
| Pairs.ReduceKeepsJokers | old-maid/server/index.js:97-101 | Every Joker is kept |
| Pairs.KeptPrefixRankCount | old-maid/server/index.js:102-105 | Scanning a prefix drops a rank's first occurrences up to two, only for ranks held at least twice |
| Pairs.ReduceRankCount | old-maid/server/index.js:102-105 | A rank held c ≥ 2 times is left with c − 2 cards; a rank held fewer times is untouched |
| Pairs.ReduceNoPairs | old-maid/server/index.js:89-109 | A hand in which no rank appears twice is returned unchanged |
| Pairs.ReduceIdempotent | old-maid/server/index.js:102-105 | Discarding twice equals discarding once exactly when no rank appears four or more times |
| Pairs.FourOfAKind | old-maid/server/index.js:102-105 | Four aces lose only the first two; a second call clears the rest |
| Pairs.SizeByRanks | old-maid/server/index.js:90-94 | A hand's size is its jokers plus the sum of its rank counts |
| Pairs.ReduceSize | old-maid/server/index.js:89-109 | Discarding removes exactly two cards per rank that is held twice or more |
| Pairs.CountRanks | old-maid/server/index.js:73-78 | The counting loop gives each rank its number of cards in the hand, jokers skipped, and records the keys in first-seen order |
| Pairs.PushRepeated | old-maid/server/index.js:82-84 | The innermost loop appends the rank exactly `k` times and leaves the earlier entries as they were |
| Pairs.ListPairs | old-maid/server/index.js:79-85 | Over a key order, with correct counts, the listing loop gives each key floor(count/2) entries in that order |
| Pairs.FindPairs | old-maid/server/index.js:71-87 | The counting loop and the `for…in` loop produce exactly `PairList`: rank keys in JavaScript enumeration order, each repeated floor(count/2) times |
| Pairs.FirstSeenKeys | old-maid/server/index.js:73-78 | The keys of `counts` are distinct and are exactly the ranks present (jokers skipped) |
| Pairs.EnumerationOrderKeys | old-maid/server/index.js:79 | Enumeration visits each present rank exactly once |
| Pairs.PairsOfCount | old-maid/server/index.js:79-85 | Over distinct keys, each key contributes floor(count/2) copies of its rank |
| Pairs.PairListCount | old-maid/server/index.js:71-87 | `findPairs` lists each rank floor(count/2) times |
| Pairs.PairListAgreesWithReduce | old-maid/server/index.js:71-109 | A rank is reported by `findPairs` exactly when `discardPairs` removes cards of it |
| Text.LeadingCount | old-maid/server/index.js:203 | Counts the whitespace run at the front of a string, stopping at the first non-whitespace character |
| Text.TrailingCount | old-maid/server/index.js:203 | Counts the whitespace run at the end of a string, stopping at the last non-whitespace character |
| Text.TrimSlice | old-maid/server/index.js:203 | `trim` returns the slice between leading and trailing whitespace, and its result neither starts nor ends with whitespace |
| Text.TrimEmpty | old-maid/server/index.js:240 | A string trims to nothing exactly when it is all whitespace |
| Text.TrimIdempotent | old-maid/server/index.js:203 | Trimming a trimmed string changes nothing |
| Text.Utf16Length | old-maid/server/index.js:208 | `length` lies between the number of characters and twice it, and equals it for strings in the Basic Multilingual Plane |
| Text.IdPatternPlain | old-maid/server/index.js:220 | An id that matches the pattern has its character count as length and nothing to trim |
| Table.Active | old-maid/server/index.js:145 | The filter keeps only unfinished players of the roster |
| Table.FindIndex | old-maid/server/index.js:337 | `findIndex`: -1 when no player has the id, else the first index holding it |
| Table.FindJoker | old-maid/server/index.js:171 | `find`: the first seat holding a joker-suit card, or the roster length when none does |
| Table.GameEnd | old-maid/server/index.js:141-183 | `checkGameEnd` changes only `winner` and `loser`, and changes nothing when it returns false |
| Table.ActiveLast | old-maid/server/index.js:145-149 | When one seat is unfinished, the filter is exactly that player |
| Table.ActiveTwo | old-maid/server/index.js:145 | Two unfinished seats give at least two active players |
| Table.GameEndWhenConcluded | old-maid/server/index.js:143 | A room with a winner or loser set returns true and is unchanged |
| Table.GameEndLastNormal | old-maid/server/index.js:148-165 | Normal mode, one unfinished player: that player becomes loser if holding the Joker, else winner |
| Table.GameEndLastReverse | old-maid/server/index.js:148-165 | Reverse mode, one unfinished player: becomes winner only with the Joker; otherwise nothing changes, and it still returns true |
| Table.GameEndAllFinished | old-maid/server/index.js:169-180 | All finished: the first joker holder becomes winner (reverse) or loser (normal); with none, nothing changes; returns true |
| Table.GameEndUndecided | old-maid/server/index.js:182 | Two or more unfinished players and no result: returns false, room unchanged |
| Table.GameEndEnded | old-maid/server/index.js:141-183 | `checkGameEnd` returns true exactly when a result is set or fewer than two players are unfinished |
| Table.GameEndIdempotent | old-maid/server/index.js:141-183 | A second `checkGameEnd` right after the first changes nothing and returns the same verdict |
| Table.Succ | old-maid/server/index.js:439 | `(i + 1) % N` is the next seat, wrapping from the last seat to 0 |
| Table.StepDist | old-maid/server/index.js:449-450 | Stepping the cyclic distance from i to s lands on s |
| Table.SkipFinished | old-maid/server/index.js:447-451 | The skip loop stops at the picker or at an unfinished seat, it never moves away from the picker, and it moves off a finished starting seat |
| Table.SkipFinishedFirst | old-maid/server/index.js:447-451 | Every seat the skip loop passes over is finished |
| Table.NextAvailable | old-maid/server/index.js:447-451 | The `while` loop computes the skip scan from the picker's neighbour back to the picker |
| Table.AdvanceTurn | old-maid/server/index.js:488-500 | The do-while with its attempts bound computes exactly `NextTurn` |
| Table.NextTurnFirstActive | old-maid/server/index.js:486-501 | With two players unfinished, the new turn is the first unfinished seat cyclically after `currentTurn`, within N steps |
| Table.TotalCardsUpdate | old-maid/server/index.js:466-480 | Replacing one seat's hand changes the total card count by the difference in that hand's size |
| Table.View | old-maid/server/index.js:111-128 | The projection has one entry per player, with `handCount` equal to the hand's length, and the same id, hand and finished flag |
| Rooms.Splice | old-maid/server/index.js:466 | `splice(i, 1)`, used on a hand here and on the roster at line 339: one element fewer, the others kept in order, and exactly the element at i removed from the multiset |
| Rooms.NewRoom | old-maid/server/index.js:230-248 | A created room is a well-formed lobby with the turn at 0, the requested mode and no result; its roster is exactly the creator, seated under the trimmed name with an empty hand, when the trimmed name is non-empty, and empty otherwise |
| Rooms.JoinWellFormed | old-maid/server/index.js:269 | Appending an empty-handed player keeps a room well formed |
| Rooms.ShuffledDeck | old-maid/server/index.js:283 | `shuffle(createDeck())` holds exactly the reference deck's cards |
| Rooms.DiscardDealt | old-maid/server/index.js:289-298 | The per-seat loop of `start_game` produces exactly the dealt-and-discarded seats |
| Rooms.StartRound | old-maid/server/index.js:283-301 | The deck is a permutation of the full deck, and the room becomes the started, dealt room after `checkGameEnd` |
| Rooms.StartWellFormed | old-maid/server/index.js:283-301 | A started room is well formed and started |
| Rooms.SeatJoker | old-maid/server/index.js:289-291 | After the deal and discard, a seat holds a joker-suit card exactly when the Joker was dealt to it |
| Rooms.DealtJokers | old-maid/server/index.js:284-290 | A hand drawn from one deck still holds a joker-suit card after `discardPairs` exactly when it holds the Joker |
| Rooms.StartOneJoker | old-maid/server/index.js:283-298 | After `start_game` exactly one seat holds the Joker |
| Rooms.FromDeckRanks | old-maid/server/index.js:16-27 | A hand drawn from the deck holds at most four cards of a rank |
| Rooms.StartRanksAtMostTwo | old-maid/server/index.js:283-298 | After the deal, each hand holds at most two cards of a rank, and exactly two precisely when all four were dealt to it |
| Rooms.ClearedRoomLobby | old-maid/server/index.js:312-322 | `new_game` leaves a well-formed lobby: not started, turn 0, no winner or loser, the same mode, and the same players in order with their ids and names, every hand empty and every `finished` flag cleared |
| Rooms.ClearRoom | old-maid/server/index.js:312-322 | The reset loop computes exactly the cleared room |
| Rooms.LeaveRemovesOnlyThatSeat | old-maid/server/index.js:337-355 | Only the leaving seat is removed; the others keep their order and hands, which are not redistributed |
| Rooms.LeaveWellFormed | old-maid/server/index.js:342-355 | A leave keeps the room well formed. A turn at or past the new roster length goes back to 0, and any other turn stays. A started room left with one player goes back to the lobby with no result; with more players left it stays started |
| Rooms.DiscardHand | old-maid/server/index.js:388-401 | The new hand is a permutation of `discardPairs` of the old one, and the room is updated then end-checked |
| Rooms.DiscardTotal | old-maid/server/index.js:388-398 | `discard_pairs` lowers the room's card total by twice the number of ranks held twice or more |
| Rooms.DiscardWellFormed | old-maid/server/index.js:388-401 | `discard_pairs` keeps a room well formed |
| Rooms.PickAccepted | old-maid/server/index.js:413-465 | A pick is accepted exactly when the player and target exist, the player holds the turn, the target is another player in the next seat, that seat is unfinished and the index names one of its cards |
| Rooms.NextSeatFinishedRejects | old-maid/server/index.js:439-457 | When the picker's next seat is finished, every pick fails |
| Rooms.LobbyPickRejected | old-maid/server/index.js:425-465 | In a well-formed lobby no pick is accepted |
| Rooms.CheckPick | old-maid/server/index.js:413-465 | The checks run in the source's order and report the first that fails |
| Rooms.MoveCard | old-maid/server/index.js:466-474 | The target loses exactly the card at `cardIndex`, and the picker's new hand is a permutation of `discardPairs` of its old hand plus that card |
| Rooms.PickFrom | old-maid/server/index.js:466-501 | The target loses exactly the card at `cardIndex`, the picker's hand is a permutation of `discardPairs(old ++ [card])`, and the room is updated, end-checked and advanced |
| Rooms.PickTotal | old-maid/server/index.js:466-474 | A pick lowers the room's card total by twice the ranks paired in the picker's enlarged hand |
| Rooms.TwoActiveSeats | old-maid/server/index.js:490 | Two active players sit at two distinct unfinished seats |
| Rooms.PickTurn | old-maid/server/index.js:483-501 | If the game ended the turn stays; otherwise it moves to the first unfinished seat cyclically after `currentTurn`; it stays in range either way |
| Rooms.PickWellFormed | old-maid/server/index.js:466-501 | A pick in a started room keeps it well formed |
| Rooms.Registry.constructor | old-maid/server/index.js:13 | The server begins with no rooms |
| Rooms.Registry.GameState | old-maid/server/index.js:111-128 | `null` exactly for an unknown room. Otherwise one entry per seat in seat order with its id, name, `finished` flag and a `handCount` equal to its hand's size, plus the room's turn, mode, start flag and result. In a valid registry the reported turn names a listed seat |
| Rooms.Registry.ResolveId | old-maid/server/index.js:197-228 | A custom id is trimmed and checked in order: length 3–20, then free, then the pattern. An id is taken when a room is stored under it or when it is a name inherited from `Object.prototype`. Each failure is characterised exactly and no other error occurs; a missing custom id gives the random id |
| Rooms.ConstructorPassesChecks | old-maid/server/index.js:207-222 | The inherited name "constructor" passes the trim, length and pattern checks and counts as taken, so `create_game` refuses it as an id already in use |
| Rooms.Registry.CreateGame | old-maid/server/index.js:195-251 | A given custom id is trimmed and then checked in order: length 3–20, free (inherited names count as taken), pattern. Each failure is characterised exactly, no other error occurs, and a failure leaves the rooms unchanged. Success stores the new room under the id, possibly replacing one under a random id |
| Rooms.Registry.JoinGame | old-maid/server/index.js:252-273 | Checks in order: room exists, trimmed name non-empty, fewer than 8 players. These are the only errors, so a join passing all three succeeds and appends exactly one empty-handed, unfinished player, changing nothing else |
| Rooms.Registry.StartGame | old-maid/server/index.js:274-302 | Missing or started room: no-op. Player count outside 2–8: that error and no other, with no change. Otherwise the start always happens: the room is started, dealt from a permutation of the full deck and end-checked |
| Rooms.Registry.NewGame | old-maid/server/index.js:303-325 | An unknown room is the only error; an existing room is always reset to its cleared lobby |
| Rooms.Registry.LeaveGame | old-maid/server/index.js:326-374 | An unknown room is an error; an unknown player changes nothing; the last player's leave deletes the room; otherwise the seat is removed as in `AfterLeave` |
| Rooms.Registry.DiscardPairs | old-maid/server/index.js:375-404 | Unknown room or player are the only errors, with no change. Otherwise the player's hand becomes a permutation of `discardPairs` of it, then the room is end-checked |
| Rooms.Registry.PickCard | old-maid/server/index.js:405-503 | An unknown room, or the first failing pick check, gives that error with no change; a pick passing every check succeeds. The hands are then moved as `PickHands` says and the room updated as `AfterPick` |

## Left out

- Transport is not modelled: the Express/HTTP/CORS setup, the WebSocket accept loop, `playerSockets`, `broadcastGame` and every `ws.send`. Handlers return a `Reply` or an `Error` instead of sending messages. The hands that `discard_pairs` and `pick_card` send to single players are returned in `Reply.Hand` and `Reply.Picked`. The hands that `start_game` sends to every seat are the seats of the returned room.
- Rooms.Registry: the model assumes every seated player has a live socket. When a player's connection closes, its `playerSockets` entry is deleted but the seat stays. The handler then throws on `.send` and stops part-way. `start_game` stops mid-deal, before `checkGameEnd` (index.js:297 before 300). `pick_card` stops after the card has moved, before the `finished` flags, `checkGameEnd` and the turn advance (index.js:476-477). `discard_pairs` stops after its update and `checkGameEnd`, before the broadcast (index.js:403, after 401). `StartGame` and `PickCard` promise the complete update for these inputs.
- Rooms.Registry: the model's map has no inherited keys except in `create_game`, where `Occupied` counts the names inherited from `Object.prototype` as taken. For the other handlers given such a name with no room under it, `games[gameId]` is truthy but not a room.
  - `join_game` first checks the name (index.js:259-261). With a blank or missing name it answers 'Player name is required.'. The model answers `GameNotFound` instead. With a non-blank name the source throws a TypeError on `.players` (index.js:263).
  - `start_game`, `leave_game`, `discard_pairs` and `pick_card` throw a TypeError on `.players`. The model answers `GameNotFound`, or `Ignored` for `start_game`.
  - `new_game` first writes `started`, `currentTurn`, `winner` and `loser`, then throws on `game.players`. For "__proto__" those writes land on `Object.prototype` itself, so every object inherits them. For the other names they land on the inherited function. The model answers `GameNotFound`.
  - Random ids are eight base-36 characters at most, so none is an inherited name.
- `console.log` and `console.error` are left out; they are logging only.
- `Math.random` is not modelled. It is nondeterminism over floating point. `Shuffle` picks its swap partner arbitrarily, and game and player ids are caller-supplied parameters. Duplicate player ids are therefore possible, and the model does not exclude them.
- JSON payload typing is left out; the model is typed.
  - A missing or non-string `customGameId`, `creatorName` or `name` is read as the empty string.
  - `reverse` is a `bool` (the source's `!!data.reverse`).
  - `cardIndex` is an `int`, so a non-number or fractional index, which `splice` would truncate, is not modelled.
- Deal.DealCards: takes an integer count, so the non-integer branch of `Number.isInteger` cannot arise. Its only caller passes a roster length. The thrown exception is a `Failure`.
- Table.GameEnd: the room is a value held in the registry map, not a shared object. The writes to `game.winner` and `game.loser` become a returned room.
- Rooms.Registry.CreateGame: the room is stored once, with the creator already seated. The source stores the empty room and then pushes onto its roster in place, which leaves the same dictionary.
- Rooms.Registry.PickCard: the invariant `WellFormed` keeps `currentTurn` on a seat. The exception JavaScript would raise on `game.players[game.currentTurn].id` never arises, so it is not modelled.
- Cards.Shuffle: the swap partner is only "some j with 0 <= j <= i". Which permutations occur, and how likely each is, is not modelled.
- The client (React UI) and the WebSocket test script are not part of this model. They hold no engine behaviour.
