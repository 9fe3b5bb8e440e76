# Power-suit game server: the game-session engine in Dafny

This project models the game-session engine of a real-time trick-taking card
server (`server.js`). A room seats 3 or 4 players. Each round deals 13 cards to
every seat from a 39-card (three suits) or 52-card (four suits) deck. The deal
is redone, up to 100 times, until no seat holds every ace in play and every
seat holds a trump; after 100 rejected draws the last deal is kept.
Then the round goes through bidding (0..13, with an auto-bid of 1..7 on
timeout), thirteen tricks under a follow-suit, must-beat and must-trump
legality chain (with an auto-play on timeout), and scoring.

Modules:

- `Wrappers`: `Option`.
- `Cards`: suits, ranks, card values and the suit list of a 3- or 4-seat room.
- `Deal`: `createDeck` (build and Fisher-Yates shuffle), `dealCards` as slices of the deck, and `checkValidDeal`. Each random draw of a deal attempt is a `Draw` parameter.
- `Legality`: `isCardPlayable`, proved equal to a rule-by-rule reference definition, and the auto-play candidate list. Also the card test of the play-card handler as written and as corrected (see Findings).
- `Tricks`: the winner scan of `evaluateTrick`.
- `Scores`: the three-way scoring formula of `endRound`.
- `Rooms`: the `Room` class. It holds the players list and the fields of `gameState`, which its methods update in place. Each socket handler and each timer callback of the core is a method; each source of randomness is a parameter kept in the range the source draws from.

The room invariant `Room.Valid()` says:

- the capacity is 3 or 4 and never exceeded;
- names are distinct;
- no hand holds a card twice.

Every method keeps it. The card-play steps also keep `TableCards()`, the multiset of the cards in the hands plus the cards in the current trick.

Points of the code the model follows closely:

- join-room checks the host PIN first (only for the first seat), then capacity, then the name (`server.js:86-90`).
- A new round starts only through player-ready: once every seat of a full room is ready, `startNewRound` runs and sets the phase to `bidding` from whatever phase the room is in, `scoring` included (`SetReady` has no phase guard). `roundNumber` is never incremented: `StartNewRound` leaves it unchanged.
- `endRound` scores a bid that is still unset (`null`) as 0, because JavaScript arithmetic turns `null` into 0 (`Scores.BidValue`).
- `addPlayer` checks only names, so two seats may share a socket id; the model admits this, and `FindSeat`, `WithoutSocket` and `IsHost` are stated for it.

## Model

| member | source | states |
|---|---|---|
| Scores.BidValue | server.js:385 | an unset bid counts as 0 in the score (used by `RoundScore` and `EndRound`) |
| Cards.RankValue | server.js:405-406 | each rank's value is 2..14, in rank order |
| Cards.SuitList | server.js:404 | a 3-seat room plays spade, heart and club; a 4-seat room adds diamond |
| Deal.FreshDeckFacts | server.js:404-408 | the unshuffled deck holds exactly the cards of the suits in play, each once |
| Deal.ShuffledIsPermutation | server.js:410 | the Fisher-Yates pass permutes the deck and keeps it free of repeats |
| Deal.Shuffle | server.js:409-410 | the in-place swap loop leaves the array equal to the reference shuffle of its old contents |
| Deal.CreateDeck | server.js:403-411 | the deck has 13 cards per suit in play, holds each card of those suits exactly once, and is a permutation of the unshuffled deck |
| Deal.DealtHands | server.js:414-417 | one 13-card slice of the deck per seat, seat i taking cards 13i..13i+12; its partition facts are `DealtHandsPartition` |
| Deal.DealtHandsPartition | server.js:414-417 | every hand has 13 distinct deck cards, no two hands share a card, and a full room uses up the deck |
| Deal.CheckValidDeal | server.js:419-426 | a deal is valid iff no hand holds all the aces in play and every hand holds at least one trump |
| Deal.CheckValidDealMeaning | server.js:419-426 | valid iff no seat holds every ace of the suits in play and every seat holds a trump card |
| Deal.AcceptedDealProperties | server.js:220-228 | an accepted deal has no seat with every ace and a trump in every seat |
| Deal.DeckFacts | server.js:222-225 | the deck a draw produces has no repeated card and holds exactly the suits in play |
| Legality.IsCardPlayable | server.js:429-458 | the legality chain of isCardPlayable; `PlayableMeansLegal` proves it equal to the rule-by-rule definition |
| Legality.HighestPlayed | server.js:443-446 | the highest lead-suit value in the trick, or -1 when no lead-suit card was played |
| Legality.PlayableMeansLegal | server.js:429-458 | isCardPlayable holds exactly when the card passes the rule-by-rule definition: free lead, follow suit and overtake when possible, otherwise trump if held, otherwise anything |
| Legality.Playable | server.js:284 | the auto-play candidates are exactly the held cards that pass isCardPlayable, and the whole hand when leading |
| Legality.SomeCardPlayable | server.js:284-285 | a non-empty hand always has a playable card, so the auto-play never stalls on its own filter |
| Legality.RemoveCard | server.js:156 | the hand filter drops exactly the played card |
| Legality.RemoveHeldCard | server.js:156 | removing a held card takes exactly one copy out of a repeat-free hand; an unheld card leaves the hand as it was |
| Legality.PlayAllowedKeepsCards | server.js:148-162 | under the corrected card test, hand and trick together keep their cards and the trick never exceeds the seat count |
| Legality.AsWrittenAcceptsUnheldCard | server.js:148-156 | as written, a card the seat does not hold is accepted when leading and the hand keeps its size |
| Legality.AsWrittenOverfillsTrick | server.js:145-173 | as written, the last seat can add a card to a full trick during the delay before evaluateTrick |
| Tricks.TrickWinner | server.js:322-346 | the winner is the first maximum of the trump suit if any trump was played, else of the lead suit, else the first entry |
| Tricks.WinnerIsUnique | server.js:322-346 | the trick winner is determined uniquely |
| Tricks.WinnerSuit | server.js:326-346 | when the lead suit is the first card's, the winning card is a trump if any trump was played and of the lead suit otherwise |
| Tricks.WorkedTricks | server.js:319-346 | two worked tricks: a trump beats higher lead cards, and an off-suit discard never wins |
| Scores.RoundScore | server.js:384-389 | a positive score iff bid <= won < 2 bid; 20 per bid trick iff the bid is 7 or more and met but not doubled; -10 per bid trick iff failed or doubled; 0 iff bid 0 |
| Scores.WorkedScores | server.js:386-388 | 5/5 scores 50, 8/9 scores 160, 3/1 scores -30, 4/9 scores -40, and a 0 bid scores 0 |
| Rooms.NewPlayer | server.js:44-48 | a fresh seat: no cards, no bid, no tricks, zero scores, not ready |
| Rooms.FindSeat | server.js:52 | getPlayer finds the first seat with the socket, or none iff no seat has it |
| Rooms.WithoutSocket | server.js:51 | removePlayer keeps exactly the seats of other sockets |
| Rooms.WithoutSocketInOrder | server.js:51 | the filter keeps the remaining seats in their old order: they sit at strictly increasing old positions, and an old seat is kept iff its socket differs |
| Rooms.WithoutSocketKeeps | server.js:51 | removing seats keeps names distinct and hands repeat-free |
| Rooms.TricksTotalIncrement | server.js:348 | crediting one trick to one seat raises the room's trick total by exactly one |
| Rooms.PlayKeepsTable | server.js:155-162 | a play moves exactly its card from the hand to the trick, keeping the table's cards |
| Rooms.Room.constructor | server.js:23-40 | a new room is empty and waiting, on trick 1 of round 1, with no trump, lead or history |
| Rooms.Room.IsHost | server.js:53 | the host is seat 0, which getPlayer finds first for that socket |
| Rooms.Room.IsFull | server.js:54 | a room is full when every seat is taken; Join refuses with RoomFull exactly then, after the PIN check |
| Rooms.Room.AllReady | server.js:55 | everyone is ready only in a full room of 3 or 4 seats, so `SetReady` schedules a round start (exactly when `AllReady()` holds) only from a full room; a seat may still leave before `StartNewRound` runs |
| Rooms.Room.AddPlayer | server.js:41-50 | seats a fresh player at the end iff the room has room and the name is free; otherwise nothing changes |
| Rooms.Room.RemovePlayer | server.js:51 | afterwards no seat has the socket, and exactly the seats of other sockets remain, in their old order |
| Rooms.Room.Join | server.js:86-90 | refuses a wrong host PIN for the first seat, then a full room, then a taken name, and otherwise seats the player; the first player to join is the host |
| Rooms.Room.SetReady | server.js:102-116 | marks only the sender ready and schedules a round start iff the room is full and everyone is ready |
| Rooms.Room.DealCards | server.js:414-417 | seat i gets deck cards 13i..13i+12 and nothing else about the seats changes |
| Rooms.Room.ResetRoundStats | server.js:218 | every bid is unset and tricks and round score are 0; names, hands and totals are kept |
| Rooms.Room.DealAttempt | server.js:222-226 | one attempt deals the draw's deck, sets its trump and returns checkValidDeal's verdict |
| Rooms.Room.DealUntilValid | server.js:220-228 | stops at the first accepted draw or after 100 attempts; every earlier draw was rejected and the last deal is kept |
| Rooms.Room.StartNewRound | server.js:216-234 | resets the round, deals as above and opens bidding with an empty trick and history |
| Rooms.Room.StartPlayingPhase | server.js:256-258 | play opens with the drawn starting seat |
| Rooms.Room.SubmitBid | server.js:119-136 | ignored unless bidding, seated and 0..13; otherwise sets only the sender's bid, and play starts iff no bid is unset |
| Rooms.Room.OnBidTimeout | server.js:248-252 | only unset bids get the drawn 1..7 bid, every bid is then set, and play starts |
| Rooms.Room.ApplyPlay | server.js:155-183 | the card leaves the hand, the lead suit is set on the first card, the play joins the trick, the turn passes unless the trick is full, and the table keeps its cards |
| Rooms.Room.PlayCard | server.js:139-184 | ignored outside play; refused when it is not the sender's turn or the card fails the corrected card test; otherwise the play step, keeping the table's cards, and the trick never exceeds the seat count |
| Rooms.Room.AutoCandidates | server.js:281-285 | every auto-play candidate is a held card of the current seat that passes isCardPlayable; as in the source, there is no check that the trick has room |
| Rooms.Room.OnTurnTimeout | server.js:277-316 | plays the drawn playable card of the current seat through the play step, and always plays when that seat holds cards; as in the source the trick's size is not checked, so after a seat leaves mid-trick the auto-play can add a card beyond the seat count |
| Rooms.Room.RecordTrick | server.js:348-380 | the winner alone gains one trick, the trick is appended to the history, and the next trick opens with the winner to lead unless this was trick 13 |
| Rooms.Room.EvaluateTrick | server.js:319-380 | credits the trick to the seat of the winning entry as the winner scan defines it; changes nothing where the source would throw |
| Rooms.Room.EndRound | server.js:383-398 | every seat's round score is RoundScore of its bid and tricks won, added to its total; the phase becomes scoring |

## Left out

- The HTTP and socket layer (Express, Socket.IO, the create-room API with its room-id generation and 4-digit PIN check), every emitted event and every log line are not modelled. The join-room lookup of an unknown room id is not modelled either: the model starts from the room.
- Real time is not modelled. Each timer callback (`OnBidTimeout`, `OnTurnTimeout`, `EvaluateTrick`, `EndRound`) is a method callable in any state with the source's own guards, so the model admits every schedule, including stale timers that `clearTimeout` would have cancelled.
- `Math.random` is not modelled: each draw is a parameter in the source's range (swap indices, trump index, auto-bids 1..7, the starting seat, the auto-play pick).
- The disconnect handler's room deletion and its timer clean-up are not modelled; its seat removal is `RemovePlayer`.
- Player records are values in a sequence, where the source mutates shared objects. Aliasing is not modelled either: the history entry shares the `currentTrick` array after trick 13.
- A card's value is a function of its rank. The source trusts the `value` field the client sends, and that trust is not modelled.
- Bids are integers. A fractional or `NaN` bid, which passes the source's `typeof` check, is not modelled.
- Rooms.Room.PlayCard: the card test is the corrected one described under Findings. Where the source would throw because no seat is current, the model answers `NotYourTurn` with no state change.
- Rooms.Room.EvaluateTrick: where the source would throw (an empty trick, or a winning seat no longer seated), the model returns `None` with no state change.
- Rooms.Room.StartPlayingPhase: the emitted starting player of an empty room, which throws in the source, is not modelled.

## Findings

| source | as written | input that shows it | evidently intended | confidence | as-written member | corrected member |
|---|---|---|---|---|---|---|
| server.js:148-156 | play-card checks only `isCardPlayable`, which returns true for any card when leading, and never checks that the sender holds the card | leading with Heart Ace from the hand [Spade Two]: accepted, and the hand filter removes nothing | a play must be a card in the sender's hand | high, not executed | Legality.AsWrittenAcceptsUnheldCard | Legality.PlayAllowedKeepsCards |
| server.js:145-173 | during the 2 s delay before `evaluateTrick` the last seat is still current and play-card accepts more cards | a 3-seat trick [Club 5, Club 10, Club J] with the last seat holding Club A: a fourth card is accepted | no card joins a trick that already has one card per seat | high, not executed | Legality.AsWrittenOverfillsTrick | Legality.PlayAllowedKeepsCards |
