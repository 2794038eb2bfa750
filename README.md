# Deal or No Deal — game engine model

A Dafny model of the engine under the Fyne desktop game "Deal or No Deal":

- 26 cases hold the 26 board amounts ($1 … $1,000,000) in shuffled order. Up to three cases are turned into prize items that displace their amount.
- The first click claims the player's case; every later click opens another case.
- Every third opening reaches the banker's checkpoint. It leads to one of four things:
  - the final reveal, when only one other case is unopened;
  - nothing, when no amount is in play;
  - once per game, with probability 0.30, the bonus sequence;
  - otherwise a swap proposal (probability 0.20) or a cash offer.
- A swap exchanges the contents of the player's case and another unopened case. The player's case moves to the new index, and the old index becomes openable again.
- The bonus manager holds a pending multiplier (q or 1/q, q in 2..5) and a pending additive amount (±100..2000 in steps of 100). It applies both to one offer and clamps the result to at least 1.
- The banker offers the mean of the positive amounts in play, times a factor in [0.6, 0.95), truncated.

Three modules follow the three source files:

- `Banker` (`banker.dfy`, from `banker.go`) is pure:
  - the offer is a recursive specification function, `Offer`;
  - the accumulation loop `CalculateOffer` is proved equal to it;
  - lemmas give the offer's bounds, its independence of order and that it ignores non-positive entries.
- `Bonus` (`bonus.dfy`, from `bonus.go`): a `BonusManager` class with the fields of the Go struct. The option lists are built by loops. `Apply` is proved against the function `BonusedOffer`.
- `Game` (`game.dfy`, from `main.go`): a `Game` class whose case contents are arrays, as in the source:
  - `caseValues`, `caseReplaced` and `itemNames`;
  - `disabled`, one flag per button.

  Its invariant `Valid()` has four parts:
  - each case is either an amount, or an item with a displaced amount and a name;
  - the amounts the cases stand for are exactly the board, each once;
  - at most three cases are items;
  - the player's case is always disabled.

  Every method keeps `Valid()` and states its new state. Specification functions over array snapshots describe the state: `Denominations`, `UnopenedBelow`, `RemainingValues` and `ReplacedSet`.

Every random draw is an input:
- the shuffle `sh`;
- the item indices and name draws;
- the two eligibility coins of the bonus manager;
- the rolls in [0, 1) for the bonus trigger, the swap and the offer factor;
- the option draws and the player's choice in each bonus dialog (the `Draws` datatype).

Dialogs become return values: `ClickResult` and `Checkpoint`. A disabled button cannot be clicked, so "the case is not opened yet" is a precondition of `OnCaseClicked`.

Points where the code does something other than what the game's rules suggest; the model follows the code:

- The smallest and largest amounts are meant never to be displaced by an item. Item placement, however, skips case indices 0 and 25 (`main.go:80`), not the cases that hold those amounts. `Game.SetupMayDisplaceSmallest` exhibits an admissible setup in which an item displaces the $1 amount.
- `Apply` truncates `offer * multiplier + additive` as a whole (`bonus.go:157-174`). It does not add the additive amount to a truncated product.
- A pending bonus is applied only in `proceedWithBankerOffer`, which is reached only from the bonus sequence. Suppose the bonus sequence ends in a swap proposal. The chosen bonus then stays pending, and the ordinary checkpoint path leaves it untouched (`Game.OfferOutcome` requires the bonus manager to be unchanged there). `Game.Game.OnCaseClicked` shows that once the sequence has run, no later click changes `bonusOffered` or the bonus manager. So the bonus is never applied.
- `bonusOffered` is set before the bonus sequence runs, even when neither bonus is eligible.
- After a swap the player keeps the same content: the contents are exchanged and the claim moves with them (`Game.Game.SwapCase`). The old index is re-enabled.

## Model

| member | source | states |
|---|---|---|
| Banker.Factor | banker.go:38 | the factor for a draw in [0,1) lies in [0.6, 0.95) |
| Banker.Offer | banker.go:24-39 | the offer is never negative and is 0 when no entry is positive |
| Banker.OfferSwap | banker.go:17-20 | the banker proposes a swap iff the draw is below 0.20 |
| Banker.CalculateOffer | banker.go:24-39 | the sum/count loop returns exactly `Offer` of its input and draw |
| Banker.AverageAtLeastOne | banker.go:36 | with a positive entry, the mean of the positive entries lies between 1 and the largest entry |
| Banker.OfferBounds | banker.go:36-39 | floor(0.6·avg) ≤ offer ≤ floor(0.95·avg) for the actual mean avg |
| Banker.OfferBelowMax | banker.go:36-39 | the offer is strictly below the largest positive value in play |
| Banker.NonPositiveIgnored | banker.go:27-32 | appending a non-positive entry changes neither sum, count nor offer |
| Banker.SumAndCountPermutation | banker.go:25-32 | sum and count of the positive entries depend only on the multiset of entries |
| Banker.OfferOrderIndependent | banker.go:24-39 | two inputs with the same entries in any order get the same offer |
| Bonus.MultiplierOf | bonus.go:89-95 | "*q" sets the multiplier q and "/q" sets 1/q; neither is 1 |
| Bonus.AdditiveOf | bonus.go:128-134 | "+v" sets v and "-v" sets −v; neither is 0 |
| Bonus.BonusedOffer | bonus.go:157-174 | the result is at least 1, is the truncation of offer·m + a whenever that is at least 1, and is the offer itself when nothing is pending |
| Bonus.BuildMultiplierOptions | bonus.go:78-86 | exactly 5 options; option i has q = draw + 2 in 2..5 and is "*" iff its operator draw says so |
| Bonus.BuildAdditiveOptions | bonus.go:117-125 | exactly 10 options; option i has v = 100·(draw + 1), a multiple of 100 in 100..2000, with the drawn sign |
| Bonus.BonusManager.constructor | bonus.go:25-34 | the eligibilities are the two coins, nothing is used, the multiplier is 1 and the additive 0, so no bonus is pending |
| Bonus.BonusManager.HasMultiplier | bonus.go:36 | available iff eligible and not yet used; while it is available, the multiplier is 1 |
| Bonus.BonusManager.HasAdditive | bonus.go:37 | available iff eligible and not yet used; while it is available, the additive amount is 0 |
| Bonus.BonusManager.HasPendingBonus | bonus.go:40-42 | a pending bonus was chosen by the player (a used flag is set); with none pending, applying leaves every positive offer unchanged |
| Bonus.BonusManager.TriggerMultiplier | bonus.go:70-107 | when the multiplier is unavailable, nothing changes and no options are shown; otherwise 5 options are shown, the chosen one sets the multiplier and the used flag, and afterwards the multiplier is unavailable and a bonus is pending |
| Bonus.BonusManager.TriggerAdditive | bonus.go:109-146 | the same for the 10 additive options and the additive amount |
| Bonus.BonusManager.Apply | bonus.go:157-174 | returns `BonusedOffer` of the offer and the pending values (at least 1), and clears both pending values |
| Bonus.BonusedOfferMonotone | bonus.go:157-174 | with a positive multiplier, a larger offer never yields a smaller bonused offer |
| Bonus.DivideNeverRaises | bonus.go:157-174 | a "/q" multiplier never raises a positive offer |
| Bonus.TimesAtLeastDoubles | bonus.go:157-174 | a "*q" multiplier at least doubles a positive offer |
| Game.Amount | main.go:19-25 | every board amount is positive |
| Game.ChosenMultiplier | bonus.go:88-95 | the multiplier the player picks is one a manager can hold, and not 1 |
| Game.ChosenAdditive | bonus.go:127-134 | the additive amount the player picks is a non-zero multiple of 100 within ±2000 |
| Game.ShuffledPositive | main.go:58-61 | a shuffle of the board has 26 entries, all positive |
| Game.SetupMayDisplaceSmallest | main.go:75-86 | item placement can put an item in the case that holds $1, the smallest amount |
| Game.DealCases | main.go:58-73 | case i receives `sh[i]`; no case has a displaced amount or a name |
| Game.PlaceItems | main.go:95-100 | each listed case becomes an item with its former amount displaced and the drawn name; every other case is untouched; exactly that many cases are items |
| Game.DealtCasesValid | main.go:55-100 | after dealing and placing items, the cases stand for the board amounts exactly once each, and case i stands for `sh[i]` |
| Game.RemainingValues | main.go:295-306 | an amount is in the list iff it belongs to the player's case or an enabled case that is not an item |
| Game.ReplacedSet | main.go:106-111 | exactly the amounts that items displaced |
| Game.Swapped | main.go:392-394 | entries i and j are exchanged and every other entry is kept |
| Game.SwapEntries | main.go:392-394 | the array afterwards is its old contents with entries i and j exchanged |
| Game.SwappedMultiset | main.go:392-394 | an exchange keeps the multiset of entries |
| Game.SwappedDenominations | main.go:392-394 | exchanging two cases' contents exchanges the amounts they stand for |
| Game.SwappedReplacedSet | main.go:420-434 | an exchange keeps the set of displaced amounts, so the sidebar's item markers are unchanged |
| Game.SwappedCasesValid | main.go:392-394 | exchanging two cases' contents keeps them well formed, keeps the amounts a permutation of the board and keeps at most three items |
| Game.UnopenedAfterOpening | main.go:212 | disabling an unopened non-player case removes exactly it from the unopened set |
| Game.UnopenedAfterSwap | main.go:400-401 | re-enabling the old case and disabling the new one puts the old case into the unopened set and takes the new one out |
| Game.AllPositiveCounted | main.go:303-304 | when every amount in play is positive, the banker counts all of them |
| Game.Game.ContentOf | main.go:472-476 | a case reports an item iff its amount slot is the item mark; an item has a name and a displaced amount on the board; cash is the amount the case stands for |
| Game.Game.DenominationInValues | main.go:244-262 | the amount a case stands for (its displaced amount or its own) is on the board, so the sidebar search always finds it |
| Game.Game.constructor | main.go:45-100 | a new game: the invariant holds; nothing is claimed, opened or disabled; case i stands for `sh[i]`; the listed cases are items with the drawn names; cases 0 and 25 hold amounts; the bonus coins decide eligibility and no bonus is pending |
| Game.Game.OnCaseClicked | main.go:167-237 | the first click claims and disables the case without counting it; a click on the player's case changes nothing; any other click keeps the player's case and behaves as `OpenCase`, including its checkpoint outcome and that a bonus sequence already run leaves `bonusOffered` and the bonus manager unchanged |
| Game.Game.OpenCase | main.go:211-236 | the case's content is reported; the count rises by 1; the amount the case stands for joins the opened amounts; opened buttons stay disabled; the final reveal comes iff one other unopened case was left; otherwise only this button changes; no checkpoint iff the count is not a multiple of 3 and more than one other case is unopened, and then `bonusOffered` and the bonus manager are unchanged; off a multiple of 3 (a final reveal included) they are unchanged too; on a multiple of 3 the result is `CheckpointOutcome` of the amounts in play once this case is disabled; once the bonus sequence has run, `bonusOffered` stays set and the bonus manager unchanged |
| Game.Game.DisableOpened | main.go:212-213 | the button of the opened case is disabled, the count rises by 1, and the case leaves the unopened set |
| Game.Game.CaseOpenedClosed | main.go:224-235 | the amount is marked opened; on a multiple of 3 the result is `CheckpointOutcome` (final reveal iff one unopened case is left, otherwise `OfferOutcome`); otherwise the final reveal comes iff one unopened case is left, and `bonusOffered` and the bonus manager are unchanged; once the bonus sequence has run, the bonus manager is unchanged |
| Game.Game.MarkPriceAsOpened | main.go:239-273 | the opened amounts gain exactly the amount the case stands for (the displaced amount of an item) |
| Game.Game.GetUnopenedCount | main.go:275-286 | the count is the number of enabled cases other than the player's |
| Game.Game.CollectRemaining | main.go:295-306 | the list is `RemainingValues` of the current state; all its amounts are on the board and positive, so the banker counts every one |
| Game.Game.RemainingOnBoard | main.go:295-306 | every amount in play is a positive board amount |
| Game.Game.ShowBankerOffer | main.go:288-356 | `CheckpointOutcome`: the final reveal iff one other case is unopened, and then the player's content is shown, every button disabled and the bonus untouched. Otherwise `OfferOutcome` of the amounts in play: nothing iff no amount is in play, which never happens while the player's case holds cash; `bonusOffered` becomes true iff the bonus sequence runs, which happens at most once per game; after the sequence the offered bonuses are marked used, the eligibilities kept and the result is `SequenceOutcome`; without it the swap roll decides swap vs offer, the offer is `Offer` of the amounts in play and the bonus manager is unchanged |
| Game.Game.ShowOffer | main.go:295-356 | `OfferOutcome` of the amounts in play: nothing iff no amount is in play; the bonus sequence at most once per game, on the 0.30 roll, marking each offered bonus used and keeping the eligibilities; otherwise a swap proposal on the 0.20 roll, or the plain `Offer` with the bonus manager unchanged |
| Game.Game.ShowBonusSequence | main.go:651-676 | each available bonus is offered in turn (multiplier first) and marked used; then the banker's turn, whose outcome is `SequenceOutcome` of the chosen values |
| Game.Game.ProceedWithBankerOffer | main.go:560-617 | on the swap roll a swap proposal with the bonus untouched; otherwise the offer, with `BonusedOffer` applied when a bonus is pending, after which none is pending |
| Game.Game.ShowFinalReveal | main.go:470-486 | reports the player's case content and disables every button |
| Game.Game.AcceptDeal | main.go:542-558 | reports the player's case content and disables every button |
| Game.Game.DisableAll | main.go:480-482 | every button is disabled and the invariant is kept |
| Game.Game.SwapCandidates | main.go:359-365 | the swap options are exactly the unopened non-player cases, in increasing order |
| Game.Game.SwapCase | main.go:385-401 | the three content arrays have the two entries exchanged; the claim moves to the new case; the old case is enabled and the new one disabled; the player keeps the same content; the old case receives the content of the new one; the unopened set loses the new case and gains the old; the invariant (amounts a permutation of the board) is kept |
| Game.Game.MoveClaim | main.go:397-401 | the claim moves to the new case, the old is enabled and the new disabled, and no content changes |
| Game.Game.SwapContents | main.go:391-394 | the three content arrays, and the amounts the cases stand for, have the two entries exchanged; the two cases exchange their contents |
| Game.Game.RefreshLabels | main.go:416-461 | one label per board amount: it shows the item marker iff an item displaced that amount, and is checked iff that amount has been opened |
| Game.Game.IsValueOpened | main.go:463-468 | true iff the amount has been recorded as opened |

## Left out

- The Fyne user interface is not modelled:
  - windows, grids, buttons, cards and label text (including the "✓ " prefix and the left/right split of the sidebar);
  - `setupUI`, `showOfferDialog`, `showPlayAgain` and `main`.
  Button state is the `disabled` array; the label text is the `SidebarLabel` datatype.
- Random number generators and their time seeds are replaced by inputs: `r.Shuffle`, `r.Intn`, `Float64` and the rejection loop that picks item indices (`main.go:76-86`). Their probabilities and uniformity are not provable and are not stated.
- Dialog callbacks run at once, in the order the source chains them:
  - accepting a swap proposal is the caller invoking `SwapCase` with a candidate from `SwapCandidates`;
  - declining is not calling it;
  - accepting an offer is `AcceptDeal`.
- The "Cancel" button of the bonus choice dialog (`bonus.go:202`) is not modelled. It closes the dialog without a choice, so the banker's turn never comes; the model always takes the player's choice.
- `GetBonusDescription`, the "Bonus Applied!" message, `showBonusResult`, `showBonusChoiceDialog` and the wrappers `TriggerMultiplier`/`TriggerAdditive` are not modelled: they are presentation only.
- The label search in `markPriceAsOpened` is not modelled as a loop. The check mark is carried by `openedValues` and `RefreshLabels`. `Game.Game.DenominationInValues` shows that the search always finds the amount, so the fall-through at `main.go:258-260` is never reached after an item's amount was found.
- The `openedValues == nil` test in `isValueOpened` is not modelled: the map is created by `NewGame`. Its membership test is the predicate `IsValueOpened`.
- Game.Game.SwapCase: does not rebuild the sidebar as `swapCase` does by calling `refreshLabels` (`main.go:406`). The labels are `RefreshLabels` of the new state, and `Game.SwappedReplacedSet` shows the swap leaves them as they were.
- Game.Game.constructor: does not build the initial sidebar (`main.go:102-135`). `RefreshLabels` on the new game gives the same labels: the item marker for each displaced amount, and nothing checked.
- Starting a fresh game ("Play Again") is simply a new `Game`.
- Banker.Offer: computed over exact reals; float64 rounding of the mean and of the factor is not modelled.
- Bonus.BonusManager.Apply: computed over exact reals; float64 rounding (for example of 1/3) is not modelled.
- Game.Game.ShowFinalReveal: disables the buttons at once instead of when the reveal dialog closes.
- Game.Game.AcceptDeal: the same; the accepted amount only appears in the dialog text and is not modelled.
