# Poker hand tracker: hand-state engine and session stores

This project models, in Dafny, the state machine that a poker
hand-tracking application uses to record one hand. It also models the
three stores that keep the player's session results.

**The hand engine.** The engine seats the players and posts the forced
bets: blinds, a bomb pot, a straddle or a Mississippi straddle. It then:

- applies fold, check, call, all-in, bet and raise to the active seat;
- gathers each round's bets into a main pot and side pots;
- moves from street to street, running the board out when nobody can act;
- pays the pots at showdown, or pays the last player when everyone else folded.

Every step is recorded as a snapshot in a history with a cursor. The
player can step back and forth through it, or reload a saved hand.

**Two revisions.** The engine exists in two revisions, `src/store/game.js`
(cash games) and `src/store/tournament.js` (tournaments). They are
modelled as one engine with a `Revision` parameter, and each place where
they differ is a branch on it. The tournament revision adds these:

- snapshots also carry the scalar state;
- Crazy Pineapple, with its discard round;
- hands that deal all hole cards in a row;
- flop snapshots merged when a saved hand is loaded.

**The stores.**

- `Sessions` is the cash-session timer and its saved results: profit, winning and losing days, best and worst day, and the longest winning streak.
- `TournamentSessions` covers the days of a multi-day tournament: saving a day and resuming the tournament on its next day.
- `Trips` is a trip shared by several players: trip days, daily results, player count, bankroll and per-player totals.

**Modules.** There is one module per file:

| file | module | contents |
|---|---|---|
| base.dfy | `Base` | `Option`, `Min`/`Max`, digits in a base and `parseInt` |
| cards.dfy | `Cards` | cards, hole-card slots, position labels |
| ledger.dfy | `Ledger` | the snapshot history with its cursor |
| table.dfy | `Table` | players, pots, hand scalars, snapshots, chip sums |
| betting.dfy | `Betting` | `postBet`, the turn order and the six actions |
| pots.dfy | `Pots` | splitting a round's bets into pots |
| showdown.dfy | `Showdown` | `endHand` |
| street.dfy | `Street` | `advanceRound`, `runItOut`, the Pineapple discards |
| engine.dfy | `Engine` | `performAction`, `checkHandOrRoundCompletion`, `performDiscard` |
| setup.dfy | `Setup` | `setupNewHand` |
| history.dfy | `History` | replay navigation, `loadHand` and flop consolidation |
| picker.dfy | `Picker` | the card picker: assigning and removing cards |
| findings.dfy | `Findings` | the source's code as written, where it goes wrong |
| sessions.dfy, tsessions.dfy, trips.dfy | `Sessions`, `TournamentSessions`, `Trips` | the three stores |

**Hand validity.** The predicate `Table.Valid` holds for every hand the
engine builds:

- seats are numbered 0..n-1;
- stacks, bets and pots are non-negative;
- the active seat and the history cursor are in range.

Each operation that changes a hand has a `...Valid` lemma showing that it
keeps `Valid`. Chip conservation is stated through `SumStacks`, `SumBets`
and `TotalPot`.

## Model

| member | source | states |
|---|---|---|
| Base.Digits | src/store/useTournamentSessionStore.js:138 | the form of a number in a base from 2 to 36 is non-empty and made of digits of that base only |
| Base.DigitsRoundTrip | src/store/useTournamentSessionStore.js:138 | reading back the digits of `n` in the same base gives `n` |
| Base.ParseInt | src/store/useTournamentSessionStore.js:47-48 | `parseInt` with or without a radix skips every JavaScript white-space character and line terminator before the number, and is NaN exactly when no digit of the base follows the sign and, without a radix, a "0x" prefix |
| Base.ParseIntDigits | src/store/useTournamentSessionStore.js:47-48 | a number's decimal digits, followed by any non-digit, read back as that number, with no radix or radix 10 |
| Base.ParseIntHex | src/store/useTournamentSessionStore.js:47-48 | with no radix, "0x" or "0X" followed by a number's hexadecimal digits reads back as that number |
| Base.ParseIntSign | src/store/useTournamentSessionStore.js:47-48 | a leading minus negates the reading of the rest, a leading plus changes nothing |
| Base.ParseIntHexExample | src/store/useTournamentSessionStore.js:47-48 | "0x1A" is 26 with no radix and 0 with radix 10 |
| Base.ParseIntSpaceExample | src/store/useTournamentSessionStore.js:47-48 | "\t5" is 5, and a no-break space and a line feed before "-7" give -7 |
| Base.ParseIntStopExample | src/store/useTournamentSessionStore.js:47-48 | "12px" is 12: the reading stops at the first non-digit |
| Base.ParseIntNaNExample | src/store/useTournamentSessionStore.js:47-48 | "0x", the empty text and "abc" are NaN |
| Cards.EmptyCardSlots | src/store/tournament.js:48-52 | a new player gets four empty slots in Omaha, three in Crazy Pineapple, two otherwise |
| Cards.Positions | src/store/game.js:659-670 | n labels for 2 to 9 players; heads-up is "BTN / SB","BB"; otherwise BTN, SB, BB first and CO last from 4 players; labels never repeat |
| Cards.SetSlot | src/store/tournament.js:799 | writing a slot changes that slot only, and writing past the end pads with empty slots as a JavaScript array does |
| Cards.RemoveAt | src/store/tournament.js:447 | `splice(i, 1)` removes exactly slot i when it exists and nothing otherwise |
| Cards.CountNonEmpty | src/store/tournament.js:202-205 | counts dealt cards: zero iff all slots are empty, full length iff none is |
| Cards.Dealt | src/store/tournament.js:804 | `filter(c => c)` keeps exactly the dealt cards, each as often as it occurs, one per non-empty slot |
| Cards.DealtAppend | src/store/tournament.js:804 | filtering keeps the order of the slots: the cards dealt from two runs of slots come one run after the other |
| Ledger.Record | src/store/tournament.js:709-729 | recording drops every snapshot after the cursor, appends the new one and moves the cursor onto it; earlier snapshots are kept |
| Ledger.Target | src/store/tournament.js:731-733 | navigation has a target exactly when cursor plus direction lies inside the history |
| Ledger.Move | src/store/tournament.js:731-752 | navigation moves the cursor by the direction, or changes nothing when that falls outside the history |
| Ledger.ForwardBack | src/store/game.js:580-589 | one step forward then one step back returns to the same history position |
| Ledger.BranchAfterBack | src/store/tournament.js:709-729 | recording after stepping back k snapshots forgets the k newer ones and keeps all older ones |
| Table.PotsFromAll | src/store/tournament.js:87 | the pots from index k on sum to the total pot less the first k pots |
| Table.SumStacksUpdate | src/store/game.js:421-430 | replacing one player changes the stack sum by that player's difference |
| Table.SumBetsUpdate | src/store/game.js:421-430 | replacing one player changes the bet sum by that player's difference |
| Table.TotalPotNonNegative | src/store/tournament.js:87 | pots that are each non-negative have a non-negative total |
| Table.SumBetsNonNegative | src/store/game.js:473-481 | bets are non-negative; their sum is zero only when every bet is zero |
| Table.InHand | src/store/tournament.js:482 | `filter(p => p.inHand)` lists every seat still in the hand and no other |
| Table.InHandIncreasing | src/store/tournament.js:482 | the seats in the hand are listed in increasing seat order, so none repeats |
| Table.CountCanAct | src/store/tournament.js:609-610 | no player can act iff the count is zero |
| Table.UsedCards | src/store/tournament.js:94-105 | in a tournament, a card is used iff it is dealt in any hole-card slot or on the board |
| Table.UsedCardsCash | src/store/game.js:79-89 | in a cash game only the first two hole cards of each player count as used, plus the board |
| Table.Snap | src/store/tournament.js:709-729 | a snapshot copies players, board and pots; it carries the hand scalars, equal to the live ones, exactly in the tournament revision and none in the cash revision |
| Table.Record | src/store/tournament.js:709-729 | recording a hand changes only its history: the new snapshot of the current state sits at the new cursor |
| Betting.PostBet | src/store/game.js:421-430 | a player pays the amount or all the stack, whichever is less; stack plus bet is unchanged; the player is all-in iff already all-in or left with nothing after a non-blind bet |
| Betting.PostAt | src/store/game.js:421-430 | posting at one seat leaves the others unchanged and conserves stacks plus bets |
| Betting.CyclicDistance | src/store/game.js:431-438 | the clockwise distance from a seat to another is between 1 and n |
| Betting.SeatOfDistance | src/store/game.js:431-438 | the seat at the clockwise distance of j from a base seat is j |
| Betting.Seek | src/store/game.js:431-438 | the search stops at the first seat that can act at or after the given distance |
| Betting.NextActor | src/store/game.js:431-438 | `advanceTurn` picks a seat that can act, and no seat closer clockwise to the current seat can act |
| Betting.Reopen | src/store/game.js:351-362 | reopening clears `hasActed` for players in the hand (only those not all-in when asked) and touches nothing else |
| Betting.ApplyFold | src/store/game.js:332-335 | a fold takes the player out of the hand; chips, pots and scalars are unchanged |
| Betting.ApplyCheck | src/store/game.js:336-339 | a check is refused iff the current bet exceeds the player's bet, and changes nothing but the acted flag |
| Betting.ApplyCall | src/store/game.js:340-344 | a call posts the difference to the current bet (capped by the stack); other seats and chips in play are unchanged |
| Betting.ApplyAllIn | src/store/game.js:345-358 | all-in moves the actor's chips exactly as `postBet` of the whole stack does, leaving them all-in and still in the hand; above the current bet it becomes the bet, sets the raise scalars and reopens action for those who can act; otherwise the scalars stay |
| Betting.ApplyBet | src/store/game.js:359-371 | a bet or raise is refused iff it is below both the minimum raise and the player's stack plus bet; otherwise it sets currentBet, the new minimum raise and the last raiser, moves the bet less what the player already has in from stack to bet (capped by the stack), and reopens action |
| Betting.BetAllowed | src/store/tournament.js:422 | a bet or raise of at least the minimum raise, or of the player's whole stack and current bet, always goes through |
| Betting.PostedChips | src/store/tournament.js:527-536 | the actor of a call, all-in, bet or raise is exactly what `postBet` makes of them (stack and bet moved, all-in when the stack runs out), marked as having acted |
| Betting.ApplyAction | src/store/tournament.js:379-440 | an action is refused iff it is a check facing a bet or an undersized bet or raise; a refusal only marks the player as acted; chips in play are conserved |
| Betting.ApplyActionPosts | src/store/tournament.js:379-440 | a call posts the bet to match less the player's own bet; an accepted bet or raise posts its amount less the player's own bet |
| Betting.ApplyActionOthers | src/store/tournament.js:379-440 | an action changes no other seat's chips, cards or status |
| Betting.ApplyActionScalars | src/store/tournament.js:379-440 | an action keeps the active seat and the dealer and leaves a non-negative current bet |
| Betting.ApplyActionValid | src/store/tournament.js:379-440 | an action keeps a valid hand valid |
| Pots.MinAllInTotal | src/store/tournament.js:555-559 | finds the lowest total contribution among the layer's all-in players, or none when nobody with chips left in the round is all-in |
| Pots.MinBet | src/store/tournament.js:562-563 | finds the lowest positive bet among the layer's players, or none when all of them are zero |
| Pots.LayerCap | src/store/tournament.js:555-566 | each layer's cap is positive, so every pass takes chips |
| Pots.LayerPlayers | src/store/tournament.js:569-572 | a layer takes the lesser of bet and cap from each contributing player, and changes nothing else |
| Pots.LayerPot | src/store/tournament.js:567-579 | a layer's pot is open to exactly the players with a positive total contribution |
| Pots.LayerConserves | src/store/tournament.js:569-579 | the chips a layer takes from the bets are exactly the new pot's amount; stacks are unchanged |
| Pots.NextLayer | src/store/tournament.js:552-580 | each pass strictly lowers the bets left on the table, so the loop ends |
| Pots.PeelEmptiesTable | src/store/tournament.js:552-580 | the pot loop runs until every bet is zero, and the pots grow by exactly the bets collected |
| Pots.Takers | src/store/tournament.js:548 | a player takes part in collection iff they bet this round or are still in the hand |
| Pots.Collect | src/store/tournament.js:547-582 | bets go to zero and join each player's total contribution; stacks are unchanged; the pots grow by the bets, keeping the earlier pots first |
| Pots.CollectConserves | src/store/tournament.js:547-582 | collection conserves stacks plus bets plus pots |
| Showdown.CreditWhereSum | src/store/tournament.js:685 | paying x to each of c players raises the stack sum by c times x |
| Showdown.BestRank | src/store/tournament.js:680-682 | the best rank is the highest rank among the pot's contenders, and some contender holds it |
| Showdown.PotWinners | src/store/tournament.js:680-683 | the winners are exactly the contenders with the best rank, and there is at least one |
| Showdown.PaySingle | src/store/tournament.js:675-678 | a sole contender receives the whole pot |
| Showdown.PaySplit | src/store/tournament.js:683-685 | each winner receives the pot divided by the number of winners, rounded down |
| Showdown.PayPot | src/store/tournament.js:671-689 | an empty or uncontested pot pays nobody; one contender takes it all; otherwise the best hands split it |
| Showdown.PaySplitRemainder | src/store/tournament.js:684-685 | a split pays out all but fewer chips than there are winners |
| Showdown.PayPotOnlyCredits | src/store/tournament.js:671-689 | paying a pot only raises stacks, by at most the pot in total |
| Showdown.PayPotsBounded | src/store/tournament.js:671-689 | a showdown pays out no more than the pots hold, and never less than nothing |
| Showdown.PayPots | src/store/tournament.js:671-689 | paying the pots in turn changes only the players and the history, and keeps every seat |
| Showdown.EndHand | src/store/tournament.js:657-690 | the hand ends at showdown with no active seat; a fold winner gets the total pot and everyone else is unchanged |
| Showdown.ShowdownPaysAtMostPot | src/store/tournament.js:668-689 | at showdown no stack goes down and the total paid is at most the pot |
| Showdown.EndHandValid | src/store/tournament.js:657-690 | ending the hand keeps it valid |
| Street.CollectRound | src/store/tournament.js:585-593 | a round's bets all reach the pots, conserving every player's chips; a single empty pot is topped up in place |
| Street.ResetRound | src/store/tournament.js:594-600 | a new street clears every bet and acted flag |
| Street.Gather | src/store/tournament.js:585-603 | closing a round moves all bets into the pots and resets the round scalars (bet 0, minimum raise one big blind) |
| Street.GatherValid | src/store/tournament.js:585-603 | closing a round keeps the hand valid, keeps stacks and leaves no bet on the table |
| Street.Enter | src/store/tournament.js:630-654 | entering a street changes only the phase and records the change |
| Street.DiscardOne | src/store/tournament.js:464-470 | the hero is skipped; any other seat joins the discarded set and gets one new snapshot after the cursor, the earlier snapshots kept; only hole cards change |
| Street.DiscardOneSeat | src/store/tournament.js:467-468 | a non-hero seat loses exactly one hole card (none when it holds none) and every other seat is unchanged |
| Street.OneDiscardedShrinks | src/store/tournament.js:467-468 | a discard leaves one card fewer, each card kept from the hand it had |
| Street.DiscardEachRecords | src/store/tournament.js:464-471 | the loop over the seats in the hand marks exactly the non-hero seats as discarded and records one snapshot per discard |
| Street.DiscardEachPlayers | src/store/tournament.js:464-471 | the loop leaves non-discarders unchanged and, with no seat listed twice, changes each discarder by exactly one discarded card |
| Street.DiscardersOfInHand | src/store/tournament.js:462-465 | over the seats in the hand, the discarders are exactly the players in the hand other than the hero |
| Street.AutoDiscard | src/store/tournament.js:461-479 | every player in the hand other than the hero loses exactly one hole card and nothing else; every other player is unchanged; the hand waits for the hero, or clears the discards and moves on to the flop when the hero is out |
| Street.NextStreet | src/store/tournament.js:630-654 | the phase moves to the next street of the variant; Pineapple goes through waiting for the flop and the discards |
| Street.NextDeal | src/store/tournament.js:512-523 | run-out deals one more street from preflop, flop or turn, and none after that |
| Street.DealStreets | src/store/tournament.js:511-523 | running out deals every remaining street up to the river, one snapshot each |
| Street.DealStreetsRecords | src/store/tournament.js:511-523 | the run-out snapshots name the dealt streets in order |
| Street.RunOut | src/store/tournament.js:508-525 | a run-out ends at showdown with nobody to act and the pots unchanged |
| Street.Opened | src/store/tournament.js:615-628 | a new street opens with the first seat after the dealer that can act |
| Street.Proceed | src/store/tournament.js:604-654 | after the river, or when fewer than two players can act, the hand is at showdown with nobody to act; the pots and the seat count are kept |
| Street.AdvanceRound | src/store/tournament.js:584-655 | the round's bets reach the pots and the round scalars reset, whatever comes next |
| Street.AdvanceRoundEnds | src/store/tournament.js:604-613 | after the river, or when fewer than two players can act, the hand ends at showdown |
| Street.AdvanceRoundOpens | src/store/tournament.js:615-654 | otherwise the next street opens with a seat that can act |
| Street.AdvanceRoundValid | src/store/tournament.js:584-655 | advancing a round keeps the hand valid |
| Engine.CheckCompletion | src/store/tournament.js:481-506 | with the round still open and several players left, only the active seat changes: it passes to the nearest seat clockwise that can act |
| Engine.FoldWinTakesAll | src/store/tournament.js:483-486 | when one player is left, they collect the pots plus every outstanding bet and nobody else's stack changes |
| Engine.FoldWinCredits | src/store/tournament.js:661-665 | a fold winner's stack grows by the total pot; the others are unchanged |
| Engine.RoundOverAdvances | src/store/tournament.js:489-502 | a finished round moves all bets into the pots and resets the betting scalars |
| Engine.CheckCompletionValid | src/store/tournament.js:481-506 | the completion check keeps the hand valid |
| Engine.PerformAction | src/store/tournament.js:379-440 | with no active seat only the pre-action flag clears; a refused action only marks the actor as acted; bet and raise amounts are non-negative |
| Engine.PerformActionValid | src/store/tournament.js:379-440 | performing an action keeps the hand valid |
| Engine.PerformDiscard | src/store/tournament.js:442-459 | a discard removes the card from that player only and records it; once every other player has discarded the hand moves to the flop |
| Engine.PerformDiscardValid | src/store/tournament.js:442-459 | a discard keeps the hand valid |
| Setup.AfterBigBlind | src/store/game.js:272 | the first seat to act preflop is seat 0 for two or three players and seat 3 otherwise |
| Setup.Seated | src/store/game.js:214-262 | a new hand seats n fresh players with 100 big blinds each and an empty history |
| Setup.BombPotAntes | src/store/game.js:278-281 | in a bomb pot every player posts the ante as a blind |
| Setup.Blinds | src/store/game.js:288-292 | the blinds post at the small- and big-blind seats only |
| Setup.Straddled | src/store/game.js:298-308 | a straddle posts two big blinds at the seat after the big blind; that seat becomes the last raiser and the next seat acts |
| Setup.Mississippied | src/store/game.js:310-319 | a Mississippi straddle posts two big blinds on the button |
| Setup.Opening | src/store/game.js:276-296 | a bomb pot opens with the antes, any other hand with the blinds, each with its own betting scalars |
| Setup.PostBlinds | src/store/game.js:263-319 | posting the forced bets (blinds or antes, then a straddle or Mississippi) only posts chips, and from sane blinds leaves a sane hand with a non-negative current bet |
| Setup.SetupNewHand | src/store/game.js:214-321 | a new hand has n fresh players and only forced bets posted |
| Setup.SetupBlinds | src/store/game.js:263-296 | SB and BB post at seats 0 and 1 heads-up (the dealer is the small blind), at seats 1 and 2 otherwise; everybody else keeps 100 big blinds |
| Setup.SetupBombPot | src/store/game.js:276-287 | everyone posts the bomb-pot ante (two big blinds by default), which becomes the bet to match |
| Setup.SetupStraddle | src/store/game.js:298-308 | with more than two players the straddle posts on top of the blinds and the seat after it acts first |
| Setup.SetupMississippi | src/store/game.js:310-319 | the button posts two big blinds and is the last raiser |
| Setup.SetupValid | src/store/game.js:214-321 | a new hand is valid |
| History.RestoredScalars | src/store/tournament.js:740-750 | a restored tournament snapshot takes the saved scalars but never leaves replay mode |
| History.Restore | src/store/tournament.js:735-750 | restoring shows the snapshot's players, board and pots and keeps the history |
| History.Navigate | src/store/tournament.js:731-752 | navigation outside the history changes nothing; inside it moves the cursor and shows the snapshot there |
| History.RecordInSync | src/store/tournament.js:709-729 | right after recording, the hand shows the snapshot under the cursor |
| History.ForwardBack | src/store/game.js:580-589 | stepping forward then back restores the hand exactly |
| History.RestartReplay | src/store/tournament.js:273-292 | restarting the replay shows the first snapshot |
| History.RestartIsNavigate | src/store/tournament.js:273-292 | restarting the replay is navigating back to index 0 |
| History.RunMarks | src/store/tournament.js:196-211 | marks exactly the positions where the flop was dealt one card per snapshot with the hole cards unchanged |
| History.Consolidate | src/store/tournament.js:188-227 | merging flop snapshots never makes the history longer, and gives an empty result only for an empty history |
| History.ConsolidateKeepsOrder | src/store/tournament.js:188-227 | every merged snapshot comes, in order, from one source snapshot, and every snapshot left out belongs to a merged flop run |
| History.ConsolidateIdentity | src/store/tournament.js:222-223 | a history without a flop run is kept as it is |
| History.ConsolidateHead | src/store/tournament.js:188-227 | the first snapshot survives merging unless it starts a flop run |
| History.LoadHand | src/store/tournament.js:151-185 | a loaded hand shows its first snapshot in replay mode; a tournament hand merges its flop snapshots and restores the saved scalars |
| History.LoadHandInSync | src/store/tournament.js:170-185 | a loaded hand shows the snapshot under its cursor |
| Picker.SeatOf | src/store/tournament.js:795 | `find` by id returns the first seat with that id, or none when no seat has it |
| Picker.SeatOfNumbered | src/store/game.js:238-239 | on a table numbered by seat, the seat of id i is i |
| Picker.OpenCardPicker | src/store/tournament.js:754-779 | opening the picker on an empty flop starts flop mode at its first card; on a tournament player with no cards it starts hand mode at the first slot |
| Picker.CloseCardPicker | src/store/tournament.js:781-788 | closing the picker clears the target and both modes |
| Picker.SetCard | src/store/tournament.js:799 | writing a hole card changes that player's slot only |
| Picker.AssignCard | src/store/tournament.js:790-831 | assigning a card keeps the hand valid and does nothing when no target is open |
| Picker.UnassignCard | src/store/tournament.js:833-851 | removing a card records a snapshot only when the slot held a card |
| Picker.HandStep | src/store/tournament.js:798-806 | in hand mode each card fills the next slot; the last one closes the picker and records the whole hand |
| Picker.DealHand | src/store/tournament.js:754-806 | dealing a full hand into an empty seat sets exactly those cards and adds one snapshot |
| Picker.FlopStep | src/store/tournament.js:813-824 | in flop mode each card fills the next flop slot; the third closes the picker, records the flop and, in Pineapple waiting for the flop, advances the round |
| Picker.DealFlop | src/store/tournament.js:770-824 | dealing three cards to an empty flop sets exactly those cards and adds one snapshot |
| Picker.CashFlopStep | src/store/game.js:622-632 | in a cash game each flop card is recorded on its own and the third closes the picker |
| Picker.CashFlopFills | src/store/game.js:622-632 | cash flop mode fills the flop slots from the current index, one snapshot per card |
| Picker.AssignThenUnassign | src/store/game.js:612-657 | a card put into an empty slot and taken out again leaves the cards as they were, with the two snapshots in order |
| Picker.AssignPlayerSingle | src/store/tournament.js:807-811 | a single hole-card assignment writes that slot, closes the picker and records it |
| Picker.AssignUnknownPlayer | src/store/tournament.js:794-796 | an unknown player target does nothing in a tournament; a cash game still closes the picker and records |
| Sessions.StartSession | src/store/useSessionStore.js:127-141 | a started session runs with no time, breaks, rebuys or expenses, keeping the saved list |
| Sessions.StartBreak | src/store/useSessionStore.js:143-152 | a break starts only in a running session, with a fresh break clock |
| Sessions.EndBreak | src/store/useSessionStore.js:154-159 | ending a break adds its time to the total break time |
| Sessions.AddRebuy | src/store/useSessionStore.js:161-165 | only a positive rebuy counts, and nothing else changes |
| Sessions.AddExpense | src/store/useSessionStore.js:167-171 | only a positive expense counts, and nothing else changes |
| Sessions.StopAndSave | src/store/useSessionStore.js:173-208 | the session is saved at the front of the list, counting a break in progress, and the timer resets |
| Sessions.ResultAccounts | src/store/useSessionStore.js:178-179 | result equals final stack less initial stack, rebuys and expenses |
| Sessions.CostsLowerResult | src/store/useSessionStore.js:161-179 | a rebuy or an expense lowers the saved result by its amount |
| Sessions.BreakCountedOnce | src/store/useSessionStore.js:154-176 | ending a break before saving gives the same record as saving during it |
| Sessions.DeleteSession | src/store/useSessionStore.js:210-213 | deleting leaves no record with that id and never lengthens the list |
| Sessions.DeleteSessionKeeps | src/store/useSessionStore.js:210-213 | a record survives deletion iff its id differs from the deleted one, and each survivor keeps its count |
| Sessions.DeleteIdempotent | src/store/useSessionStore.js:210-213 | deleting twice is deleting once |
| Sessions.SaveThenDelete | src/store/useSessionStore.js:197-213 | deleting a just-saved session with a new id restores the list |
| Sessions.SaveAddsProfit | src/store/useSessionStore.js:24-26 | saving a session raises the total net profit by its result |
| Sessions.TotalNetProfit | src/store/useSessionStore.js:24-26 | the net profit is never negative when no session lost, and never positive when none won |
| Sessions.WinningDays | src/store/useSessionStore.js:39-41 | no winning days iff no session won, and every session counts iff every one won |
| Sessions.LosingDays | src/store/useSessionStore.js:43-45 | no losing days iff no session lost, and every session counts iff every one lost |
| Sessions.WinLoseBound | src/store/useSessionStore.js:39-45 | winning days plus losing days never exceed the number of sessions |
| Sessions.BestDay | src/store/useSessionStore.js:47-51 | the best day is the highest result (0 when there are no sessions) |
| Sessions.WorstDay | src/store/useSessionStore.js:53-57 | the worst day is the lowest result (0 when there are no sessions) |
| Sessions.WorstNotAboveBest | src/store/useSessionStore.js:47-57 | the worst day is never above the best |
| Sessions.Chronological | src/store/useSessionStore.js:62 | the chronological order is the saved list reversed |
| Sessions.WinningStreak | src/store/useSessionStore.js:59-76 | the streak is the longest run of consecutive winning sessions in chronological order |
| TournamentSessions.TotalDuration | src/store/useTournamentSessionStore.js:46-50 | the duration is hours times 3600 plus minutes times 60, an unreadable field counting 0 |
| TournamentSessions.FieldValue | src/store/useTournamentSessionStore.js:47-48 | a stored number is read as itself; typed text counts 0 iff `parseInt` finds no number or finds 0 |
| TournamentSessions.TypedDigits | src/store/useTournamentSessionStore.js:47-48 | a typed number reads back as itself |
| TournamentSessions.StartSession | src/store/useTournamentSessionStore.js:54-64 | a started day runs with no time, rebuys or expenses and keeps the tournament id and day |
| TournamentSessions.AddRebuy | src/store/useTournamentSessionStore.js:66-71 | only a positive rebuy counts |
| TournamentSessions.AddExpense | src/store/useTournamentSessionStore.js:73-78 | only a positive expense counts |
| TournamentSessions.SaveTournament | src/store/useTournamentSessionStore.js:126-183 | the day is appended under the tournament's id (or a new one), with the clock as its id and the day's rebuys and day-two stack; a continuing day is saved as the next day; an ending day clears the id and resets the day to 1; the duration is cleared and nothing else in the session changes |
| TournamentSessions.ResumeTournament | src/store/useTournamentSessionStore.js:216-252 | only a continuing day can be resumed; the session takes its id, day (2 by default), stack, rebuys and expenses and is loaded but not running |
| TournamentSessions.ResumeDuration | src/store/useTournamentSessionStore.js:222-226 | the restored hours and minutes give the saved seconds to the minute |
| TournamentSessions.SaveThenResume | src/store/useTournamentSessionStore.js:126-252 | saving a continuing day and resuming it gives back the same tournament, the next day, the typed duration, the day's rebuys, and its day-two stack (5000 when missing or 0) as the initial stack |
| TournamentSessions.FindRecord | src/store/useTournamentSessionStore.js:255 | `findIndex` returns the first record with the id, or none |
| TournamentSessions.UpdateSession | src/store/useTournamentSessionStore.js:254-263 | the first record with the id takes the changes; without one nothing changes |
| Trips.Lookup | src/store/useTripStore.js:244 | a key is found iff some entry has it, with that entry's value |
| Trips.Put | src/store/useTripStore.js:236 | after storing a key it maps to the new value and every other key is unchanged |
| Trips.Insert | src/store/useTripStore.js:234-235 | inserting into a sorted list keeps it sorted and adds exactly that element |
| Trips.Sort | src/store/useTripStore.js:235 | `sort()` gives a permutation of the list, sorted by UTF-16 code units |
| Trips.StrLeTotal | src/store/useTripStore.js:235 | any two texts compare one way or the other in code-unit order |
| Trips.StrLeTrans | src/store/useTripStore.js:235 | code-unit order is transitive |
| Trips.SurrogatesSortFirst | src/store/useTripStore.js:235 | a character above U+FFFF sorts before U+FF61, as its surrogate pair does |
| Trips.NewDayLookup | src/store/useTripStore.js:236-239 | a new day has an empty record for exactly the current players |
| Trips.NewDay | src/store/useTripStore.js:236-239 | every record of a new day is empty: result 0, hours 0, no stake |
| Trips.AddTripDay | src/store/useTripStore.js:231-241 | an empty or known date changes nothing; a new one joins the sorted days with fresh records and leaves other days alone |
| Trips.AddTripDayOnce | src/store/useTripStore.js:233-235 | a new date appears once, so the days never repeat |
| Trips.SetField | src/store/useTripStore.js:245-246 | only the named field changes; result and hours take the leading decimal integer of the text, or 0 (`parseFloat(value) || 0` for whole numbers, see Left out), the stake takes the text |
| Trips.SetFieldWhole | src/store/useTripStore.js:245-246 | a whole number typed in decimal is stored as that number in the result or hours field |
| Trips.UpdatePlayerDailyData | src/store/useTripStore.js:243-248 | only an existing record changes, in the named field; without a record nothing changes |
| Trips.NewPlayers | src/store/useTripStore.js:206-213 | the added players are numbered on from the current count |
| Trips.SetPlayerCount | src/store/useTripStore.js:203-219 | the list grows with new players or is truncated, keeping the existing players in front |
| Trips.GrowBankroll | src/store/useTripStore.js:203-213 | each added player brings 1000 to the collective bankroll |
| Trips.CollectiveBankroll | src/store/useTripStore.js:25-27 | non-negative bankrolls give a non-negative collective bankroll, and all-zero ones give 0 |
| Trips.BankrollAppend | src/store/useTripStore.js:25-27 | the bankroll of two groups of players is the sum of theirs |
| Trips.PlayerTotals | src/store/useTripStore.js:58-69 | every player gets the sum of their daily results, and only players get a total |
| Trips.DayTotalSkipsOthers | src/store/useTripStore.js:61-67 | a player's day total ignores other players' records: 0 without a record, non-negative when the player's results are |
| Trips.TripTotalSkipsOthers | src/store/useTripStore.js:61-67 | a player with no record on any day totals 0 |
| Trips.DayProfit | src/store/useTripStore.js:31 | a day on which nobody won or lost adds 0, and a day without losses adds a non-negative amount |
| Trips.TripProfit | src/store/useTripStore.js:29-34 | a trip on which no result is non-zero has a total profit of 0 |
| Trips.TotalsAddUp | src/store/useTripStore.js:29-34 | the players' totals add up to the trip's total profit |
| Trips.AddDayKeepsTotals | src/store/useTripStore.js:231-241 | adding a day that has no records yet changes neither the trip's profit nor any player's total |
| Findings.AdvanceRoundAsWritten | src/store/tournament.js:584-655 | `advanceRound` as written, calling `runItOut`, which calls `advanceRound` again; `None` when the calls never end |
| Findings.AdvanceRoundAsWrittenDiverges | src/store/tournament.js:604-613 | before the river with fewer than two players able to act, the source's `advanceRound` never returns |
| Findings.AdvanceRoundAsWrittenAgrees | src/store/tournament.js:584-655 | in every other case the code as written matches `Street.AdvanceRound` |
| Findings.CheckCompletionAsWritten | src/store/tournament.js:481-506 | the completion check as written: closing the round before a fold win |
| Findings.FoldOnRiverPaysTwice | src/store/tournament.js:483-486 | a fold to one player on the river pays that player the pot twice |
| Findings.FoldOnRiverPaysOnce | src/store/tournament.js:483-486 | the corrected check pays the pot plus the outstanding bets once |

## Left out

- Persistence and the network are not modelled: saving, fetching and deleting hands through the API, and `localStorage`.
- Timers are not modelled: the session clocks and the automatic replay. Elapsed time is a field that callers set.
- Floating-point figures are not modelled: ROI, averages, win rates, participations. `parseFloat` is modelled as `parseInt` with radix 10, which keeps only a leading decimal integer; the differences are listed under `Trips.SetField` below.
- Trips.SetField: reads only a leading decimal integer where `parseFloat` reads a decimal number. A fraction is truncated ("1.5" gives 1), a text starting with a point gives 0 (".5"), exponent notation keeps only the digits before the exponent ("1e3" gives 1, not 1000), and "Infinity" gives 0, not infinity. Whole numbers written in decimal agree (`Trips.SetFieldWhole`).
- UI-only state is not modelled: notes, layout flags, player names typed by the user and `lastAction`.
- Snapshot descriptions are an `Event` datatype rather than the Spanish sentences, because number-to-text formatting adds nothing to the properties.
- `evaluateHand` is a `Ranker` parameter (a function from cards to rank). The hand evaluator is not part of this model.
- The `handResult` that `endHand` stores on each contender is not modelled. The rank from the `Ranker` is used directly to choose the winners, and the stored result is only read for the snapshot description.
- The random card index of the Pineapple auto-discard is a `Chooser` parameter.
- `uuidv4()` and `Date.now()` become parameters.
- Spreading changes over a record in `updateSession` is a `merge` function parameter.
- Metadata fields are not modelled: location, currency, buy-in and game type, beyond what the operations read.
- The tournament-session store's `stopAndSaveSession` and `deleteSession` are not modelled, because they repeat the cash-session ones that are.
- `resetHand` and the settings toggles are not modelled, because they only assign constants.
- Engine.PerformAction: requires a bet or raise amount to be non-negative. The source accepts a negative amount, and because the minimum raise can itself be negative such an amount may pass the guard and post negative chips. An unknown action string cannot be written in the closed `Action` type either; the source would record an empty snapshot and still run the completion check (src/store/tournament.js:389-440). Engine.PerformActionValid has the same requires.
- Setup.SetupNewHand: requires at least two players. With fewer, the source reads blind seats that do not exist.
- History.LoadHand: requires a non-empty saved history, because the source reads `historial[0]`.
- History.RestartReplay: requires a non-empty history, for the same reason.
- Picker.DealFlop: leaves out the Pineapple case that advances the round on the third card. `Picker.FlopModeFills` states that case.
- Trips.UpdatePlayerDailyData: models only the result, hours and stake fields.
- Trips.TotalsAddUp: requires the day records to belong to current players with distinct ids. After a player is removed, the source keeps that player's old records.
- Pots.LayerCap: `betAmountPerPlayer` is never set in the source, so the cap is always the lowest all-in total or the lowest bet. The branch that reads it is not modelled.
- A duration field that holds a number reads as that number. JavaScript would first print a number of 10^21 or more in exponent form, which is not modelled.
- JavaScript's falsy `||` defaults are written out as `OrElse`. A stored 0 and a missing value read alike.

## Findings

| source | as written | input that shows it | evidently intended | confidence | as-written member | corrected member |
|---|---|---|---|---|---|---|
| src/store/tournament.js:508-525 | `runItOut` starts by calling `advanceRound`, which sees fewer than two players able to act before the river and calls `runItOut` again | heads-up preflop, one player all-in and called: no one can act, and the two functions call each other forever | run the remaining streets out and go to showdown | not executed | Findings.AdvanceRoundAsWrittenDiverges | Street.AdvanceRoundEnds |
| src/store/tournament.js:483-486 | when one player is left on the river, `advanceRound` is called first; it goes to showdown and pays the pots, then `endHand(winner)` pays the total pot again | three players on the river, two fold: the survivor receives the pot twice | pay the survivor once | not executed | Findings.FoldOnRiverPaysTwice | Findings.FoldOnRiverPaysOnce |
