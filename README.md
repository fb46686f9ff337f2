# Telegram bingo (tombola 90): a Dafny model

This project models the game core of a Telegram bingo bot. It covers four parts:

- **The game state** (`game_logic.py`): the persisted game state, the generation of 3×9 Bingo-90 cards, the cinquina (full row) and bingo (full card) checks, winner collection, ticket purchase with its 24-card limit and the next-game bucket, starting a game, and the text rendering of a card.
- **The scheduler** (`game_scheduler.py`): one pass of the loop that draws the numbers.
- **The ledger** (`transaction.py`): a simulated balance ledger.
- **The registry** (`game_manager.py`): the in-memory game registry, with its ticket purchase, jackpot increment and prize split.

Modules, one per concern:

- `Common` (common.dfy): `Option` (a dictionary key that may be absent), `Outcome` (a result or a raised KeyError/TypeError), duplicate-free sequences and counting facts about integer ranges.
- `Cards` (cards.dfy): cards, the in-place generation algorithm on an `array2`, and the cinquina and bingo predicates.
- `CardText` (card_text.dfy): `format_bingo_card`. The rendered card splits back into its rendered rows, one per line, and each rendered cell reads back as its number and its drawn mark. Reading a row back into its cells is not proved.
- `GameLogic` (game_logic.dfy): the state file as the datatype `Store`, where each key may be missing or the file may not be an object at all. The class `GameStore` holds that state. It is changed in place by `StartGame`, `BuyTicket` and `CheckWinners`.
- `Scheduler` (scheduler.dfy): one tick of `draw_numbers` as a state transition on a `GameStore`.
- `Transaction` (transaction.dfy): the class `Ledger`, which maps a user to their deposit and withdrawal totals.
- `GameManager` (game_manager.dfy): the class `Manager`, which holds the `games` registry and the persisted `GameStore` that `update_jackpot` and `handle_game_end` share. It also holds the payout rule.

Choices the code leaves to chance are inputs here:

- The shuffled column pools of a card are a parameter.
- The scheduler's `random.choice` is a nondeterministic choice (`:|`) among the numbers not yet drawn.
- The retried `random.randint(0, 8)` column pick is a nondeterministic choice of a column of the row that is still free. This makes the filling loop terminate.
- The game id of `create_new_game` is a parameter.

The order of a dictionary's keys is also a choice of this kind. So the winner lists are specified by their contents (each winner once, and only winners), not by their order.

Behaviour kept as written:

- **A reset leaves the scheduler stuck.** The scheduler replaces a malformed state with one that has no `players` key. The forced `start_game` then raises, and so does every later `check_winners`.
- **`start_game` discards the current players.** It replaces `players` with `next_game_players` rather than merging them.
- **The registry's reply reports the wrong jackpot.** `buy_ticket` in `game_manager.py` bumps only the persisted jackpot. The reply reports the registry's own jackpot, which nothing ever changes from 0 (`JackpotsZero`).
- **The scheduler's "no number available" branch can never run** (game_scheduler.py:58-59). With fewer than 90 numbers drawn, some number of 1..90 is always still available (`SomeNumberAvailable`).

## Model

| member | source | states |
|---|---|---|
| GameLogic.GameStore.constructor | game_logic.py:9-20 | the state a missing or unreadable state file is replaced by: no players, no numbers drawn, game inactive |
| Cards.FillRow | game_logic.py:104-109 | filling one row keeps the card invariant and ends with five more positions filled; the other rows of the grid are untouched; each filled column of the row receives the last number of its remaining pool, which is popped, and the other pools are unchanged |
| Cards.GenerateCard | game_logic.py:97-111 | a generated card has 3 rows of 9 cells with exactly 5 numbers per row (the rest 0), every number of column c in 10c+1..10c+10, and no number twice |
| Cards.GenerateCards | game_logic.py:67 | one well-formed card per requested ticket |
| Cards.CountDrawnBound | game_logic.py:139-140 | when 0 is not drawn, a row's drawn-cell count never exceeds its number of filled cells, and equals it exactly when every number of the row is drawn |
| Cards.CinquinaIffRowComplete | game_logic.py:135-142 | on a well-formed card, check_cinquina holds iff some row has all its numbers drawn |
| Cards.BingoIffAllDrawn | game_logic.py:144-148 | on a well-formed card, check_bingo holds iff all 15 numbers are drawn |
| Cards.BingoImpliesCinquina | game_logic.py:135-148 | on a well-formed card a bingo is also a cinquina |
| CardText.FormatCellRoundTrip | game_logic.py:166-172 | a rendered cell shows its number (blank for 0), and carries the drawn mark exactly when the number has been drawn |
| CardText.UndrawnCellWidth | game_logic.py:169-172 | an undrawn cell of a card is exactly two characters wide |
| CardText.CardLines | game_logic.py:163-175 | the lines of a rendered card are exactly its rendered rows, in order |
| CardText.SplitJoin | game_logic.py:173-175 | splitting a join on its separator gives back the joined parts |
| GameLogic.CollectWinners | game_logic.py:118-126 | each list names each user at most once, and a user is listed iff one of their cards wins that category |
| GameLogic.BingoListNonEmpty | game_logic.py:128 | the bingo list is non-empty iff some player holds a bingo card |
| GameLogic.ExtendedKeepsValid | game_logic.py:67-68 | adding generated cards keeps every card of the bucket well formed |
| GameLogic.GameStore.StartGame | game_logic.py:29-45 | raises without a `players` key; changes nothing when there are no players and no next-game key; otherwise empties the draw, activates the game and, when the next game's players are non-empty, installs them as the players (replacing) and empties that bucket |
| GameLogic.GameStore.BuyTicket | game_logic.py:49-94 | targets the next-game bucket while a game is active and the players otherwise; more than 24 cards for the user leaves the state unchanged; a purchase appends exactly `num` well-formed cards to that user only and changes no other key; raises on a missing `game_active`, or on a missing `players` key when the game is inactive |
| GameLogic.GameStore.CheckWinners | game_logic.py:114-132 | the returned lists are exactly the winners; the game is marked inactive iff the bingo list is non-empty, and the state is otherwise unchanged; raises without `players`, or without `drawn_numbers` once some card is examined |
| Scheduler.SomeNumberAvailable | game_scheduler.py:51-59 | with fewer than 90 numbers drawn, some number of 1..90 has not been drawn yet, so the set at line 51 is never empty |
| Scheduler.AllDrawnIffNoneLeft | game_scheduler.py:42 | in a well-formed draw at most 90 numbers are out, and 90 are out iff none is left |
| Scheduler.DrawKeepsValid | game_scheduler.py:51-55 | appending an available number keeps the draw duplicate-free, within 1..90 and at most 90 long |
| Scheduler.BingoWinnersHaveCinquina | game_scheduler.py:30-39 | during a well-formed draw over well-formed cards, every bingo winner is also a cinquina winner |
| Scheduler.Tick | game_scheduler.py:9-59 | a malformed state is reset and forced active with no players, after which start_game raises; an inactive game is made active with an empty draw before start_game, and nothing is drawn; an unreadable active state is left as it is; a bingo ends the game with no draw; 90 numbers drawn ends the game; otherwise exactly one number, new and in 1..90, is appended; a well-formed draw stays well formed |
| Transaction.Ledger.constructor | transaction.py:9-13 | without a transactions file the ledger is empty |
| Transaction.Ledger.Deposit | transaction.py:22-42 | an unknown user is first opened at 0/0; only that user's deposits grow, and the user's balance (deposits minus withdrawals, 0 when unknown) rises by `amount` |
| Transaction.Ledger.Withdraw | transaction.py:65-85 | refused with no change for an unknown user or an amount above the balance, with the whole balance allowed; otherwise the withdrawals grow by `amount`, and the reported remaining balance is the old balance minus `amount`, never negative |
| Transaction.Ledger.UpdateBalance | transaction.py:88-106 | an unknown user is first opened at 10/0; afterwards the balance equals `newBalance`, only deposits grow for a positive difference, only withdrawals grow for a negative one, and no other user changes |
| GameManager.Prize | game_manager.py:68-72 | no winners means a prize of 0 with no division; otherwise the winners' prizes add up to the category's share of the jackpot |
| GameManager.PayWinners | game_manager.py:75-84 | a win is recorded for every winner, in order, iff the payment of the prize succeeds, which send_payment (transaction.py:47-54) allows exactly for a positive amount |
| GameManager.RecordedTotal | game_manager.py:68-84 | a category pays out exactly its share of a positive jackpot when it has winners, and nothing otherwise |
| GameManager.PayoutWithinJackpot | game_manager.py:67-84 | all recorded wins together never exceed the jackpot (nothing for a non-positive one), and they take all of it when both categories have winners |
| GameManager.Manager.constructor | game_manager.py:7 | the registry starts with no games and shares the persisted game state |
| GameManager.Manager.CreateNewGame | game_manager.py:12-20 | installs an active game with no players, jackpot 0 and no draw under the id, replacing any game there |
| GameManager.Manager.StartNewGame | game_manager.py:23-26 | the new game's only player is the user, with no cards |
| GameManager.Manager.UpdateJackpot | game_manager.py:29-43 | does nothing when the persisted game is inactive (a missing flag reads as inactive); otherwise adds the number of tickets times the price 1 to the persisted jackpot, a missing one counting as 0 |
| GameManager.Manager.BuyTicket | game_manager.py:47-59 | refused with no change when the game is missing or inactive; otherwise appends exactly `num` well-formed cards to the user in that game alone, bumps only the persisted jackpot, and reports the registry's jackpot, which stays 0 |
| GameManager.Manager.HandleGameEnd | game_manager.py:63-97 | the winners are those of the persisted state; the recorded wins are the cinquina payouts then the bingo payouts, with total within the jackpot; with any winner the persisted game ends inactive; the game leaves the registry, and the removal raises iff it was not there |

## Left out

- Reading and writing the JSON files (game_logic.py:9-25, transaction.py:9-19). Each file is a field that methods read and reassign. The default state is the constructor's.
- Printing, the debug messages and the reply strings. Replies are typed results (`BuyResult`, `WithdrawResult`, `TickStatus`, and so on) carrying the values the strings report.
- The source's randomness. Its choices are parameters or nondeterministic picks, as described above. The order of dictionary iteration is not modelled, so the order inside each winner list is unspecified.
- `asyncio` sleeps and the endless `while True` of the scheduler. One tick is modelled. The loop's catch-all handler appears only as the `TickRaised` and `Restarted(StartRaised)` outcomes, with the state as it was when the exception was raised.
- Values of the wrong JSON type inside the state file, such as a list stored under `players`. Only missing keys and a non-object file are modelled.
- User ids are strings throughout. The source compares a bot's integer ids against the string keys JSON reloads, which the model does not capture.
- Floating-point rounding. Amounts and prizes are exact reals.
- `save_win` only has a side effect of printing. Each call is a `WinRecord` in the result of `HandleGameEnd`.
- The "no winner" chat message of `handle_game_end` (game_manager.py:89-95), which goes to the Telegram bot.
- Races between the scheduler, the bot and the server writing the same state file.
- `bingo_bot.py`, `websocket_server.py`, `database.py` and `models.py` are not part of this model. `config.py` is used for its constants only: 24 cards per user, and game_manager.py's own price of 1 per ticket.
- get_user_balance is the function `Ledger.Balance`, through `BalanceOf`. It has no contract of its own. Its meaning is fixed by the contracts of `Deposit`, `Withdraw` and `UpdateBalance`.
- Reading a rendered row back into its cells is not proved: splitting on the `" | "` separator is not modelled. Each cell and each line of a card are proved to read back.
