# Loyalty demo core, modelled in Dafny

This project models the browser-side core of a loyalty-card demo. The core has five parts:

- **The points ledger** (`assets/js/points.js`). It keeps a balance that never goes negative and a log of the 24 newest transactions. A scan earns points, and a scan inside a double-points window earns twice. Spending is refused when the balance is too low. A successful spend can carry a redemption key (`LC-XXXX-XXXX-XXXX` over an alphabet without `0`, `O`, `1` and `I`). Each reward can be claimed once per day, and the double-points reward opens a one-hour window.
- **The Snake mini-game** (`assets/js/games.js`). A session goes ready → countdown (five seconds) → running → over. The snake moves on an 18 × 18 grid. The score sets a multiplier between 1.0 and 2.5 and a tick between 190 ms and 90 ms. When the session ends, its base points times the multiplier are credited to the ledger once.
- **The QR scan dispatch** (`assets/js/scan.js`, `handleScanResult` and its parsers). The text of a code is tried as a game launch in four formats, in this order: JSON, URL query, key-value pairs, then `name:points` / `name|points`. Only if none of them reads is the text taken as a number of points to book.
- **Discounts** (`assets/js/discounts.js`). A fixed catalog with a stored count of remaining uses. The redeem click spends the points and uses one up.
- **Groups** (`assets/js/groups.js`). The submit form saves a named group of valid e-mail addresses, and the per-group field adds one member.

## How the model is built

State that the source keeps in `localStorage` or in module variables becomes the fields of a class: `Points.Ledger`, `Games.SnakeGame`, `Discounts.DiscountStore` and `Groups.GroupStore`. Each method of a class is proved to move its state exactly as a pure transition function says. For example:

- `Ledger.DeductPoints` performs `Points.Deducted`;
- `SnakeGame.Tick` performs `Games.Ticked`.

The properties of the system are then proved as lemmas about those transition functions.

Things the program gets from outside become parameters:

- the clock: `now` in milliseconds and `today` as the date stamp;
- every `Math.random` draw: the transaction-id suffix, the twelve key characters and the food cells tried by `spawnFood`;
- the outcome of `JSON.parse`.

Game timers are explicit flags. `tickPending` stands for a scheduled movement tick and `countdownActive` for the running countdown interval. Their callbacks are the methods `Tick` and `CountdownStep`. `Games.Apply` and `Games.Run` describe any interleaving of user input and timer callbacks.

Arithmetic on the multiplier is done in tenths:

- the multiplier `round1(1 + 0.15·score)`, clamped to [1.0, 2.5], is `min(25, (21 + 3·score) / 2)` tenths;
- `Math.round(base · multiplier)` is `(base · tenths + 5) / 10`;
- the tick `round(190 − 100·(m − 1)/1.5)` is `(1143 − 40·(tenths − 10)) / 6` milliseconds.

`Text` gives the JavaScript string primitives the parsers rely on:

- `trim` and `\s` white space;
- ASCII `toLowerCase`;
- `split` on a character class;
- `String(n)` and `Number.parseInt(s, 10)` for integers.

Two behaviours of the code are modelled as written:

- `endGame` does not stop the countdown interval. Giving up during the countdown marks the session over, but when the interval reaches zero the session runs again with a tick scheduled and can still earn its credit (`Games.GiveUpDuringCountdownResumes`).
- `handleRedeem` in `discounts.js` uses up a discount even when the spend was refused (see Findings).

## Model

| member | source | states |
|---|---|---|
| `Points.Max0` | assets/js/points.js:25-33 | the stored balance is never negative: a non-negative value is kept and a negative one becomes 0 |
| `Points.Logged` | assets/js/points.js:61-74 | the new entry comes first, the earlier entries follow in their old order, and the log holds at most 24 |
| `Points.LoggedNewest` | assets/js/points.js:61-74 | logging into a cut log equals cutting the longer log |
| `Points.LoggedAllKeepsNewest` | assets/js/points.js:61-74 | any run of operations leaves exactly the 24 most recent entries (counting the earlier log), newest first |
| `Points.LogAfterManyOperations` | assets/js/points.js:61-74 | after 24 or more operations, entry i of the log is the i-th most recent operation |
| `Points.KeyBlock` | assets/js/points.js:51-59 | a block is four characters, each the alphabet letter its draw selects |
| `Points.GenerateKey` | assets/js/points.js:51-59 | a key is 17 characters: `LC-`, three blocks of four drawn alphabet characters, dashes at positions 7 and 12 |
| `Points.AlphabetIsUnambiguous` | assets/js/points.js:51-59 | the key alphabet contains none of `0`, `O`, `1`, `I` |
| `Points.KeyIsUnambiguous` | assets/js/points.js:51-59 | every character after the prefix is a dash or from the alphabet, and no key character is `0`, `O`, `1` or `I` |
| `Points.BoostDoublesOnlyScansInWindow` | assets/js/points.js:217-234 | a non-zero amount changes exactly when the reason is `QR-Scan` and the window is still open, and then it is doubled |
| `Points.DailyStateOn` | assets/js/points.js:180-187 | the record is today's; a record from another day, or none, becomes an empty one for today |
| `Points.MarkClaimedEffect` | assets/js/points.js:197-206 | after marking, the reward reads as claimed today, other rewards read as before, and nothing reads as claimed on another day |
| `Points.EarnReason` | assets/js/points.js:120-122 | an empty reason becomes `QR-Scan`; the result is the scan reason exactly when the reason given is empty or `QR-Scan` |
| `Points.SpendReasonFor` | assets/js/points.js:145-147 | an empty reason becomes the spend reason; any other reason is kept |
| `Points.Earned` | assets/js/points.js:120-136 | an earn entry with the possibly doubled amount is put in front of the log, and the balance moves by that amount, clamped at zero; the window and the daily record are unchanged |
| `Points.Deducted` | assets/js/points.js:138-160 | a balance below the amount changes nothing and fails; otherwise the amount is taken off, a spend entry (with the key, if one was asked for) is put in front of the log, and the result succeeds and carries the generated key exactly when one was asked for |
| `Points.BoostActivated` | assets/js/points.js:221-228 | the window ends at now plus the duration, whatever it was before, and is open exactly when the duration is positive; balance, log and daily record are kept |
| `Points.BoostDoesNotStack` | assets/js/points.js:221-228 | two activations leave only the second window |
| `Points.ClaimMarked` | assets/js/points.js:202-206 | the reward reads as claimed today; balance, log and window are unchanged |
| `Points.RewardRedeemedEffect` | assets/js/points.js:261-273 | a reward claimed today, or one the balance does not cover, changes nothing; otherwise the cost is deducted, the generated key is returned and stored on the new spend entry, the reward is marked claimed today, and only the double-points reward opens a one-hour window |
| `Points.RedeemOncePerDay` | assets/js/points.js:261-273 | after a successful redemption, a second click on the same reward the same day fails and changes nothing |
| `Points.Cleared` | assets/js/points.js:279-291 | after the reset the balance is 0, the log empty, the daily record absent, and no window is open at any time from 0 on |
| `Points.Ledger.constructor` | assets/js/points.js:16-23 | an empty store reads as the cleared state |
| `Points.Ledger.GetBalance` | assets/js/points.js:16-23 | the balance read is never negative |
| `Points.Ledger.SetBalance` | assets/js/points.js:25-33 | the stored balance becomes the value clamped at zero |
| `Points.Ledger.AddTransaction` | assets/js/points.js:61-74 | the log becomes `Logged` of the old log and the new entry, and stays within 24 |
| `Points.Ledger.AddPoints` | assets/js/points.js:120-136 | the store moves exactly as `Earned` says |
| `Points.Ledger.DeductPoints` | assets/js/points.js:138-160 | the store and the result are exactly those of `Deducted` |
| `Points.Ledger.ActivateDoublePoints` | assets/js/points.js:221-228 | the store moves exactly as `BoostActivated` says |
| `Points.Ledger.MarkClaimedToday` | assets/js/points.js:202-206 | the store moves exactly as `ClaimMarked` says |
| `Points.Ledger.RedeemReward` | assets/js/points.js:261-273 | the store and the result are exactly those of `RewardRedeemed` |
| `Points.Ledger.Reset` | assets/js/points.js:279-291 | the store becomes the cleared state |
| `Points.BasicRedeemScenario` | assets/js/points.js:138-160 | with 20 points, a 15-point redemption with a key succeeds, leaves 5, and logs a spend of 15 under the given reason with that key |
| `Points.BoostedScanScenario` | assets/js/points.js:230-234 | inside the window, a 10-point scan adds 20 and logs 20 |
| `Games.StartSnakeValid` | assets/js/games.js:36-53 | the starting snake is three distinct cells on the grid |
| `Games.Multiplier` | assets/js/games.js:66-69 | the multiplier is between 1.0 and 2.5, and is 2.5 from score 10 on |
| `Games.MultiplierMonotone` | assets/js/games.js:66-69 | a higher score never gives a lower multiplier |
| `Games.FinalPoints` | assets/js/games.js:130-133 | the credit lies between the base points and 2.5 times the base points, rounded |
| `Games.ScoringScenario` | assets/js/games.js:66-69 | base 100 and score 4 give multiplier 1.6 and 160 points |
| `Games.TickMs` | assets/js/games.js:71-77 | the tick lies between 90 and 190 ms: 190 at multiplier 1.0 or below, 90 at 2.5 or above |
| `Games.TickMsMonotone` | assets/js/games.js:71-77 | a larger multiplier never gives a longer tick |
| `Games.AwardReason` | assets/js/games.js:133 | the reason of a game credit opens with `QR-G`, so it is never the scan reason |
| `Games.AwardNeverBoosted` | assets/js/games.js:133-136 | a game credit is booked unchanged, even inside a double-points window |
| `Games.FirstFreeDraw` | assets/js/games.js:55-64 | the cell found is the first draw that is free (every earlier draw is occupied), and none is found exactly when every draw is occupied |
| `Games.FirstDrawOnEmptyGrid` | assets/js/games.js:55-64 | with nothing occupied the first draw is taken |
| `Games.SwipeDir` | assets/js/games.js:239-248 | a swipe below 12 px on both axes gives no direction; otherwise the longer axis decides, a tie goes to the vertical axis, and the sign of the distance picks right or left, down or up |
| `Games.SwipeAlongDirection` | assets/js/games.js:239-248 | a swipe of at least 12 px straight along one of the four directions selects that direction |
| `Games.SwipeReversed` | assets/js/games.js:239-248 | swiping the opposite way selects the opposite direction, and a short swipe stays short |
| `Games.Initial` | assets/js/games.js:16-21 | when the page loads there is no session, and the state is valid |
| `Games.Initialized` | assets/js/games.js:36-53 | a fresh valid session in `ready`: score 0, the starting snake moving right, no queued turn, base points clamped at zero, food on the first draw, which lies on the grid |
| `Games.Launched` | assets/js/games.js:292-308 | a session starts exactly when the trimmed, lower-cased game name is `snake`; otherwise nothing changes |
| `Games.Started` | assets/js/games.js:97-118 | only a `ready` session starts, into a countdown of five seconds with the interval running; anything else is left alone |
| `Games.Scheduled` | assets/js/games.js:79-85 | while the session runs, a tick becomes pending with the delay the score's multiplier sets and nothing else changes; otherwise nothing changes |
| `Games.CountdownStepped` | assets/js/games.js:105-117 | each second takes one off the countdown; at zero the interval stops, the session runs and its first tick is scheduled after the score's delay, and snake, score, food, direction, award and base points are kept |
| `Games.Ended` | assets/js/games.js:120-142 | ending a live session sets `over` and stops the tick; a credit of `FinalPoints` is made exactly when the session was not cancelled, not yet credited, and is worth more than 0; the countdown interval is left as it was |
| `Games.MovedKeepsShape` | assets/js/games.js:144-177 | moving into a free cell keeps the snake on the grid, without repeats and at the same length |
| `Games.Turned` | assets/js/games.js:144-150 | the queued direction, if any, becomes the direction and the last direction, the queue empties, and snake, food, score and status are kept |
| `Games.Moved` | assets/js/games.js:160-177 | onto the food the snake grows by one, the score rises by one and the new food is the first free draw of `spawnFood`; elsewhere the tail is dropped and the score and food are kept; direction, award, base points and timers are kept either way |
| `Games.Ticked` | assets/js/games.js:144-177 | the head moves one step in the queued or current direction; a move into the border or the body ends the game as not cancelled (`Ended` of the turned state with `canceled` false, so the session is credited once when its points are positive), and any other move keeps the game running with the next tick scheduled after the delay of the new score, with award, base points and countdown kept |
| `Games.Queued` | assets/js/games.js:211-221 | only while running, and never the exact reverse of the last direction, the input becomes the queued direction; the latest accepted input wins |
| `Games.Swiped` | assets/js/games.js:239-248 | a short swipe changes nothing; otherwise the swipe's direction is queued |
| `Games.Closed` | assets/js/games.js:310-324 | after closing there is no session and neither timer is pending |
| `Games.CreditAddsExactly` | assets/js/games.js:134-136 | a game credit adds exactly its points to the balance and records exactly them |
| `Games.Apply` | assets/js/games.js:97-329 | every input or timer callback keeps the game state valid |
| `Games.Run` | assets/js/games.js:97-329 | any sequence of events keeps the game state valid |
| `Games.FullGridStallsTick` | assets/js/games.js:55-64 | when the snake eats the food on the last free cell, no draw list gives new food, so the model's tick leaves the state as it was where `spawnFood` would loop forever |
| `Games.ApplyAwardsOnce` | assets/js/games.js:120-142 | a credit only comes from a session not yet credited and marks it credited, and nothing clears the mark |
| `Games.AwardAtMostOnce` | assets/js/games.js:120-142 | whatever happens in a session, at most one credit is booked, and none once it was credited |
| `Games.CountdownTakesFiveSeconds` | assets/js/games.js:97-118 | four seconds after the start the countdown still runs; the fifth starts the game with a tick pending |
| `Games.GiveUpDuringCountdownResumes` | assets/js/games.js:120-142 | giving up during the countdown leaves the interval running; five seconds later the session is running again, not credited, with a tick pending |
| `Games.ReverseRejectedScenario` | assets/js/games.js:211-221 | moving right, a left input changes nothing |
| `Games.LatestDirectionWins` | assets/js/games.js:217-221 | of two accepted inputs before a tick, the later one is queued |
| `Games.SpawnFood` | assets/js/games.js:55-64 | the loop returns the first free drawn cell |
| `Games.SnakeGame.constructor` | assets/js/games.js:16-21 | the module starts in the page-load state |
| `Games.SnakeGame.InitState` | assets/js/games.js:36-53 | the state becomes `Initialized` of the old state |
| `Games.SnakeGame.Launch` | assets/js/games.js:292-308 | state and answer are those of `Launched` |
| `Games.SnakeGame.Start` | assets/js/games.js:97-118 | the state becomes `Started` of the old state |
| `Games.SnakeGame.ScheduleNextTick` | assets/js/games.js:79-85 | the state becomes `Scheduled` of the old state |
| `Games.SnakeGame.CountdownStep` | assets/js/games.js:105-117 | the state becomes `CountdownStepped` of the old state |
| `Games.SnakeGame.EndGame` | assets/js/games.js:120-142 | the state becomes `Ended`, and the ledger gets that credit if there is one |
| `Games.SnakeGame.Tick` | assets/js/games.js:144-177 | the state becomes `Ticked`, and the ledger gets the credit of a collision if there is one |
| `Games.SnakeGame.Advance` | assets/js/games.js:160-177 | the state becomes `Moved` of the old state |
| `Games.SnakeGame.QueueDirection` | assets/js/games.js:217-221 | the state becomes `Queued` of the old state |
| `Games.SnakeGame.HandleSwipe` | assets/js/games.js:239-248 | the state becomes `Swiped` of the old state |
| `Games.SnakeGame.Close` | assets/js/games.js:310-324 | the state becomes `Closed` and the ledger is untouched |
| `Scan.SignedNumber` | assets/js/scan.js:242-244 | a number is read exactly when the text opens with a digit, or with `-` and a digit |
| `Scan.SignedNumberOfIntToString` | assets/js/scan.js:242-244 | a number written by `String` reads back, whatever digit-free text follows it |
| `Scan.NumericValue` | assets/js/scan.js:240-246 | no value is read exactly when the text holds no digit |
| `Scan.NumericValueOfIntToString` | assets/js/scan.js:240-246 | a number followed by digit-free text reads back exactly |
| `Scan.NumericValueSkipsPrefix` | assets/js/scan.js:240-246 | text before the number that holds no digit and no minus sign is skipped |
| `Scan.PayloadOf` | assets/js/scan.js:268-271 | a payload exists exactly when the trimmed name is not empty and the points parse as an integer, and it is the trimmed name with those points |
| `Scan.JsonPayload` | assets/js/scan.js:263-275 | only text wrapped in braces can give a payload, and its game name is never empty |
| `Scan.JsonPayloadOfObject` | assets/js/scan.js:266-271 | braced text decoded to an object gives the payload of `game`, or of `title` when `game` is empty, with the integer in `points` |
| `Scan.JsonPayloadNeedsObject` | assets/js/scan.js:264-274 | text without an opening brace, or that `JSON.parse` rejects, gives no payload |
| `Scan.QueryGet` | assets/js/scan.js:279-281 | the value of the first field with the name, and none when no field has it |
| `Scan.QueryPayload` | assets/js/scan.js:277-284 | text with neither `game=` nor `points=` gives nothing; a payload has a non-empty name |
| `Scan.KeyValuePayload` | assets/js/scan.js:286-299 | text with neither `:` nor `=` gives nothing; a payload has a non-empty name |
| `Scan.KeysAreLowerCase` | assets/js/scan.js:294-295 | the keys `game` and `points` are already lower case |
| `Scan.KeyValueFoldPrefix` | assets/js/scan.js:291-296 | the `forEach` over one more part is one more step |
| `Scan.KeyValueStepGame` | assets/js/scan.js:292-294 | a part `game:name` or `game=name` sets the game to the name and nothing else |
| `Scan.KeyValueStepPoints` | assets/js/scan.js:292-295 | a part `points:n` or `points=n` sets the points to n and nothing else |
| `Scan.KeyValueRoundTrip` | assets/js/scan.js:286-299 | `game:name;points:n` reads back as that name and n, for a name with no separator of either level |
| `Scan.QueryRoundTrip` | assets/js/scan.js:277-284 | `game=name&points=n`, or with `;` for `&`, reads back as that name and n |
| `Scan.KeyValueLaterGameWins` | assets/js/scan.js:291-296 | a later `game` part overrides an earlier one and leaves the points alone |
| `Scan.KeyValueSkipsEmpty` | assets/js/scan.js:293 | a part whose key or value is empty after trimming changes nothing |
| `Scan.ParseKeyValuePayload` | assets/js/scan.js:286-299 | the loop over the parts returns exactly `KeyValuePayload` |
| `Scan.NameRun` | assets/js/scan.js:302 | the run is the longest prefix of `[a-z0-9_-]` characters (case-insensitive) |
| `Scan.SimplePayload` | assets/js/scan.js:301-308 | a payload's name is the opening name run, at least three characters long |
| `Scan.NameRunOfPrefix` | assets/js/scan.js:302 | the name run of a name followed by a non-name character is that name |
| `Scan.SimpleRoundTrip` | assets/js/scan.js:301-308 | `name:n` and `name|n` read back as that name and n, whatever digit-free text follows |
| `Scan.GamePayload` | assets/js/scan.js:248-261 | blank text is no game, and a payload always names a game; the trimmed text is tried as JSON, then as a query, then as key-value pairs, then in the simple form, and the first form that reads gives the result |
| `Scan.QueryReadsFirstGame` | assets/js/scan.js:277-283 | in `game=a&game=b&points=n` the query form takes the first `game` |
| `Scan.KeyValueReadsLastGame` | assets/js/scan.js:286-299 | in `game=a&game=b&points=n` the key-value form lets the later `game` win |
| `Scan.QueryComesBeforeKeyValue` | assets/js/scan.js:248-261 | because the query form is tried first, `game=a&game=b&points=n` launches `a`, although the key-value form alone would read `b` |
| `Scan.ParseGamePayload` | assets/js/scan.js:248-261 | the method returns exactly `GamePayload` |
| `Scan.NoQueryWithoutEquals` | assets/js/scan.js:278 | text without `=` is never read as a query |
| `Scan.PlainTextIsSimple` | assets/js/scan.js:248-261 | text of name characters and bars is read only in the simple form |
| `Scan.NumberIsNoGame` | assets/js/scan.js:248-261 | a plain number is no game launch in any of the four forms |
| `Scan.PipeFormLaunches` | assets/js/scan.js:248-261 | `name|n` launches that name with n base points |
| `Scan.ScanAction` | assets/js/scan.js:211-238 | a game payload wins and is what gets launched; a number is booked exactly when there is no payload and the text holds a digit, and the number booked is the one read from the text |
| `Scan.NumberScanBooksPoints` | assets/js/scan.js:228-233 | a code holding only a number, negative ones included, books that number as a scan; inside a window a non-negative one counts twice |
| `Scan.HandleScanResult` | assets/js/scan.js:211-238 | a payload launches the game and leaves the ledger alone; a number is earned on the ledger and leaves the game alone; otherwise nothing changes |
| `Discounts.RemainingUses` | assets/js/discounts.js:41-44 | the stored count if there is one, else the catalog count |
| `Discounts.ButtonFor` | assets/js/discounts.js:66-73 | the button is enabled and reads `Einlösen` exactly when a use remains, and reads `Ausverkauft` otherwise |
| `Discounts.FreshStoreAllAvailable` | assets/js/discounts.js:2-24 | with nothing stored, every catalog discount can be redeemed |
| `Discounts.RedeemedEffect` | assets/js/discounts.js:79-90 | without uses nothing changes; otherwise the count drops by one whatever the spend did, the other counts are kept, and the balance drops only when it covers the cost |
| `Discounts.UnpaidRedeemConsumesUse` | assets/js/discounts.js:83 | with a zero balance a smoothie redeem still uses one up and leaves the ledger alone |
| `Discounts.RedeemedPaidConsumesOnlyWhenPaid` | assets/js/discounts.js:79-90 | with the guard on `success`, a use is taken exactly when the cost is deducted and logged; otherwise nothing changes |
| `Discounts.DiscountStore.constructor` | assets/js/discounts.js:41-44 | no counts are stored |
| `Discounts.DiscountStore.HandleRedeem` | assets/js/discounts.js:79-90 | counts and ledger move exactly as `Redeemed` says |
| `Discounts.DiscountStore.HandleRedeemPaid` | assets/js/discounts.js:79-90 | counts and ledger move exactly as `RedeemedPaid` says |
| `Groups.ValidEmailMatchesPattern` | assets/js/groups.js:81-84 | the address test agrees with `^[^\s@]+@[^\s@]+\.[^\s@]+$` on every text, in both directions |
| `Groups.ValidEmailMatches` | assets/js/groups.js:82 | an address that passes the test matches the pattern |
| `Groups.MatchingEmailValid` | assets/js/groups.js:82 | a text that matches the pattern passes the test |
| `Groups.NonEmptyTrimmed` | assets/js/groups.js:91-92 | the kept pieces are trimmed and non-empty, and none is kept exactly when every piece is blank |
| `Groups.NonEmptyTrimmedOne` | assets/js/groups.js:91-92 | one piece gives its trimmed text, or nothing when it is blank |
| `Groups.NonEmptyTrimmedConcat` | assets/js/groups.js:91-92 | the pieces of two lists are those of the first followed by those of the second, so each piece is handled on its own and the order is kept |
| `Groups.NonEmptyTrimmedKeeps` | assets/js/groups.js:91-92 | pieces that are already trimmed and non-empty are all kept, in order |
| `Groups.ParseMembers` | assets/js/groups.js:89-92 | every member is trimmed and non-empty |
| `Groups.ParseMembersOfJoin` | assets/js/groups.js:89-92 | trimmed, non-empty, comma-free addresses joined by commas are read back as the same list, in order; an empty field gives no member |
| `Groups.ParseOneMember` | assets/js/groups.js:89-92 | one padded address with no comma is read as that one member |
| `Groups.FindIndex` | assets/js/groups.js:24 | the index of the first group with the id, and none when no group has it |
| `Groups.GroupUpdated` | assets/js/groups.js:22-32 | only the first group with the id is replaced by the updater's result; an unknown id or a declining updater changes nothing |
| `Groups.AddMemberEffect` | assets/js/groups.js:64-73 | an address already there is declined; otherwise the members are kept in order and the address is added once, at the end |
| `Groups.Submitted` | assets/js/groups.js:86-107 | a blank name or no valid members saves nothing; otherwise exactly one well-formed group with the trimmed name is appended |
| `Groups.MemberAdded` | assets/js/groups.js:54-76 | a blank or invalid address changes nothing; otherwise the group is updated, and the click reports success even for a duplicate or an unknown id |
| `Groups.SubmitKeepsWellFormed` | assets/js/groups.js:86-107 | saving keeps every stored group well formed |
| `Groups.AddMemberKeepsWellFormed` | assets/js/groups.js:54-76 | adding a member keeps every stored group well formed |
| `Groups.GroupStore.constructor` | assets/js/groups.js:10-15 | no groups are stored |
| `Groups.GroupStore.UpdateGroup` | assets/js/groups.js:22-32 | the list becomes `GroupUpdated` of the old list |
| `Groups.GroupStore.AddMember` | assets/js/groups.js:54-76 | list and outcome are those of `MemberAdded` |
| `Groups.GroupStore.Submit` | assets/js/groups.js:86-107 | list and outcome are those of `Submitted` |
| `Reset.HandleReset` | assets/js/points.js:279-291 | the ledger is cleared, and no discount counts or groups are left |
| `Text.Trim` | assets/js/scan.js:250 | the result has no white space at either end and is empty exactly when the text is blank |
| `Text.TrimPadded` | assets/js/groups.js:91 | trimming removes exactly the blank padding around a text |
| `Text.Lower` | assets/js/scan.js:294-295 | each character is lower-cased in place |
| `Text.ParseInt` | assets/js/scan.js:281 | no number is read exactly when no digit follows the white space and the sign |
| `Text.ParseIntRoundTrip` | assets/js/scan.js:295 | `parseInt(String(n))` is n |
| `Text.SplitTwo` | assets/js/scan.js:288 | two separator-free pieces around one separator split back into those two pieces |
| `Text.SplitJoin` | assets/js/groups.js:90 | separator-free pieces joined by the separator split back into the same pieces |
| `Text.ReplaceAll` | assets/js/scan.js:279 | every `from` becomes `to`, and every other character is kept |

## Left out

- Rendering, HUD text, status messages, overlay visibility, the canvas and the celebration effects are left out. Of the outcome of a scan, only its kind is kept (`Scan.Outcome`).
- Camera access and QR decoding are left out: the scanner hands over a string.
- `JSON.parse` is an input (`Scan.JsonDecoded`). Its member values are given as the text `String` makes of them.
- Only single-character replacement is modelled for `text.replace(/;/g, '&')`.
- `URLSearchParams` is simplified. A leading `?` is dropped, the text is split on `&`, the first `=` separates name and value, and `get` returns the first match. Percent-decoding and `+` as a space are not modelled.
- `Scan.KeyValueRoundTrip` and `Scan.QueryRoundTrip` hold only for game names without the separators of their format.
- Keyboard and d-pad handlers are left out: they map a key to a direction and call `queueDirection`, which is modelled. The touch listeners are reduced to the distance they hand to `handleSwipe`.
- Floating point is left out. The multiplier, the rounding of the credit and the tick length are computed exactly in tenths, as given above. Half-way cases of `Math.round` on binary fractions are assumed to round up.
- Timestamps are kept as the clock reading `now`, not as ISO strings. The transaction id is `now`, a dash and the random draw.
- Failures of `localStorage` and corrupt stored JSON are left out: stored values are always well formed. An absent key reads as the default the code substitutes.
- Each `Math.random` draw is a parameter. A food draw list must contain a free cell, since the source loops until it finds one.
- `Games.Apply`: the hang of a full grid is not modelled. When the snake eats the food on the last free cell, the `do…while` of `spawnFood` (`assets/js/games.js:59-62`) never ends and the page hangs. No draw list then has a free cell, so in the model that tick does not happen and the state is left as it was (`Games.FullGridStallsTick`).
- `Text.ParseInt`, `Scan.SignedNumber`, `Scan.NumericValue` and `Scan.PayloadOf` read numbers as exact integers. The source reads them into doubles with `Number.parseInt`. A run of 309 or more digits becomes `Infinity` there, and the `Number.isFinite` checks reject it; the model accepts it. Above 2^53 the source also loses precision in the balance arithmetic; the model keeps every integer exact.
- `Text.Lower` folds ASCII letters only; the full Unicode case mapping of `toLowerCase` is not modelled.
- `handleRedeem` is gated only by the remaining uses: there is no group or balance gate before the spend (`assets/js/discounts.js:79-83`).

## Findings

| source | as written | input that shows it | evidently intended | confidence | as-written member | corrected member |
|---|---|---|---|---|---|---|
| assets/js/discounts.js:83 | the guard tests the object `deductPoints` returns, which is always truthy, so a use is consumed even when the spend was refused | a balance of 0 and a click on the smoothie discount (cost 12, 3 uses): the count drops to 2 and no points are taken | consume a use only when `success` is true | high, not executed | `Discounts.UnpaidRedeemConsumesUse` | `Discounts.RedeemedPaidConsumesOnlyWhenPaid` |
