# Treasure chests: purchase, claim, countdown and history

A Dafny model of the front end of an on-chain treasure-chest game. A player buys one to ten chests
from the chest contract. Once the purchase is confirmed the chests can be claimed. Each claim pays
a prize in ether. Three pieces carry the logic:

- **The purchase/claim session** (`ChestSession`, `Receipts`, `ChestCalls`, `PrizeTiers`):
  - the component's state fields;
  - how a confirmed transaction receipt is folded into that state, in two passes over the logs;
  - the calls it submits to buy and to claim;
  - the quantity selector;
  - the screen the state selects.
- **The claim-deadline countdown** (`BlockCountdown`): the blocks left in a chest's 256-block claim
  window, the time they stand for at two seconds a block, and the urgency colour.
- **The winnings history** (`WinningHistory`): the contract's logs decoded best-effort, sorted
  newest first, and paged five at a time with clamped navigation.

How the model is set up:
- Amounts are wei, as unbounded naturals. Block numbers and chest indices are naturals too.
- Decoding a log against the contract interface is a parameter of type `RawLog -> Option<Event>`.
  `None` is a log the parser rejects, which the source catches and skips.
- The block-height source and the explorer fetch also become parameters: `Poll(height)` and
  `FetchSettled(outcome)`.
- Each timer callback becomes an explicit method call:
  - `TimerFired` is the 15-second "claim open" callback. `pendingTimers` counts the callbacks
    scheduled and not yet fired.
  - Each 2-second countdown tick is one `Poll`.
- The success handler's state setters run together in one batch and read no state in between.
  The batch applies each field's queued updates in queue order: a functional updater runs on
  the value pending at that point, and a plain value replaces it. In this handler every updater
  of a field is queued before that field's plain set. So the model applies the setters one after
  another as field updates, in source order. The per-prize updaters of the running total and the
  chest list are kept as one pending value (`Pending`, `Queued`). The plain
  `setPurchasedChests(newChests)` is queued after them, so a receipt with purchases ends with
  exactly the new chest list.

Observed behaviour, modelled as written: prizes are matched to chests by position, the k-th prize
taking the k-th purchase of the same receipt. As a result, no chest of the session is ever marked
claimed:
- A claim receipt has no `ChestPurchased` log, so its prizes carry no chest index and its
  queued marks change nothing (`Receipts.ClaimOnlyReceiptMarksNothing`).
- A receipt that both buys and awards gives its prizes the indices of the chests it bought. But the
  queued marks run on the old list, and the plain replacement by the freshly bought, unclaimed
  chests comes after them. So the chest a prize names stays unclaimed
  (`Receipts.MatchedChestStaysUnclaimed`).

No receipt leaves a claimed chest behind (`Receipts.ReceiptLeavesChestsUnclaimed`), and the session
invariant records that none is ever claimed. The claim screen's badge and "play again" branches are
therefore unreachable; every row shows its countdown (`ChestSession.Session.ClaimScreenNeverSettles`).
A prize moves the session to the secured-treasure screen by clearing `canClaim`.

## Model

| member | source | states |
|---|---|---|
| PrizeTiers.PrizeColor | app/components/WinningHistory.tsx:88-95 | the tier is the best one whose threshold (0.1, 0.04, 0.015, 0.008 ether, in wei) the amount reaches: that threshold is reached and no better tier's is |
| PrizeTiers.PrizeColorUnique | app/components/ChestPurchaseAndClaim.tsx:338-342 | exactly one tier applies: a tier whose threshold is reached while no better one is reached is the colour |
| PrizeTiers.PrizeColorMonotone | app/components/WinningHistory.tsx:88-95 | a larger prize never gets a worse tier |
| Receipts.PurchaseOf | app/components/ChestPurchaseAndClaim.tsx:127-141 | a log yields a chest exactly when it decodes to ChestPurchased; the chest carries the event's index, block and flag, and is unclaimed |
| Receipts.AwardOf | app/components/ChestPurchaseAndClaim.tsx:149-160 | a log yields an award exactly when it decodes to PrizeAwarded; the award carries the prize, the flag and the log's transaction hash |
| Receipts.Purchases | app/components/ChestPurchaseAndClaim.tsx:124-144 | pass 1 yields at most one chest per log, and every chest is unclaimed |
| Receipts.Awards | app/components/ChestPurchaseAndClaim.tsx:147-161 | the awards of the PrizeAwarded logs in log order, at most one per log; AwardsAppend and FailedLogSkipped describe it |
| Receipts.PurchasesAppend | app/components/ChestPurchaseAndClaim.tsx:125-144 | pass 1 over concatenated logs is the concatenation of pass 1 over each part |
| Receipts.AwardsAppend | app/components/ChestPurchaseAndClaim.tsx:147-185 | the same for the awards of pass 2 |
| Receipts.FailedLogSkipped | app/components/ChestPurchaseAndClaim.tsx:141-143 | a log that fails to decode is skipped by both passes, and the logs after it are still collected |
| Receipts.PurchasesFromLogs | app/components/ChestPurchaseAndClaim.tsx:124-144 | the k-th collected chest comes from a ChestPurchased log, with exactly k chests collected from the logs before it (log order) |
| Receipts.ChestIndexAt | app/components/ChestPurchaseAndClaim.tsx:162 | defines `newChests[k]?.index`: the index of the k-th purchase, or none past the end; AttachPositional states it for every prize |
| Receipts.Attach | app/components/ChestPurchaseAndClaim.tsx:158-165 | matching yields one prize per award |
| Receipts.AttachPositional | app/components/ChestPurchaseAndClaim.tsx:158-165 | the k-th prize has the k-th award's amount, flag and hash, and the index of the k-th purchase, or none when there are fewer purchases |
| Receipts.ReceiptPrizes | app/components/ChestPurchaseAndClaim.tsx:146-185 | pass 2's result: one prize per award of the receipt, matched against the same receipt's purchases; AttachPositional, PositionalMatchIndex and ClaimOnlyReceiptMarksNothing describe it |
| Receipts.PrizeStep | app/components/ChestPurchaseAndClaim.tsx:146-165 | one more log extends the matched prizes by that log's award, matched to the purchase at the position of the prizes collected so far |
| Receipts.AttachSum | app/components/ChestPurchaseAndClaim.tsx:166-169 | the prizes' total is the total of the awarded amounts |
| Receipts.SumAmountsAppend | app/components/ChestPurchaseAndClaim.tsx:166-169 | the sum of prize amounts is additive over concatenation |
| Receipts.MarkClaimed | app/components/ChestPurchaseAndClaim.tsx:174-180 | one queued chest-list update keeps the list's length |
| Receipts.MarkAll | app/components/ChestPurchaseAndClaim.tsx:174-180 | the chained chest-list updaters, one per prize in order, which keep the list's length; MarkAllEffect gives the effect on every chest |
| Receipts.MarkAllEffect | app/components/ChestPurchaseAndClaim.tsx:174-180 | after the queued updates a chest is claimed exactly when it was claimed before or some prize carries its index; nothing else about any chest changes |
| Receipts.MarkAllMonotone | app/components/ChestPurchaseAndClaim.tsx:174-180 | the queued updates never unclaim a chest |
| Receipts.ClaimOnlyReceiptMarksNothing | app/components/ChestPurchaseAndClaim.tsx:162 | with no purchase in the receipt, every prize has no chest index and the queued updates leave every chest unchanged |
| Receipts.AnySpecial | app/components/ChestPurchaseAndClaim.tsx:195 | defines `newChests.some(chest => chest.special)`: some chest of the list is special; Session.ApplyReceipt sets the flag from it |
| Receipts.ChestsAfter | app/components/ChestPurchaseAndClaim.tsx:174-194 | defines the chest list a receipt leaves: the bought chests when there are some, since that plain set is queued after the marks, otherwise the old list under the receipt's marks; ReceiptLeavesChestsUnclaimed and MatchedChestStaysUnclaimed describe it |
| Receipts.ReceiptLeavesChestsUnclaimed | app/components/ChestPurchaseAndClaim.tsx:162-194 | a chest list with no claimed chest has none after any receipt: bought chests start unclaimed, and a receipt without purchases marks nothing |
| Receipts.MatchedChestStaysUnclaimed | app/components/ChestPurchaseAndClaim.tsx:162-194 | when a receipt buys and awards, its k-th prize names the k-th chest of the list it leaves, and that chest is unclaimed (the replacement runs after the marks) |
| Receipts.PositionalMatchIndex | app/components/ChestPurchaseAndClaim.tsx:162 | when a receipt has both a k-th award and a k-th purchase, its k-th prize carries the k-th purchased chest's index |
| ChestCalls.DecrementQuantity | app/components/ChestPurchaseAndClaim.tsx:66 | "-" never goes below 1, stays within 10, never goes up from a valid quantity (so 1 stays 1), and is one less above 1 |
| ChestCalls.IncrementQuantity | app/components/ChestPurchaseAndClaim.tsx:77 | "+" never goes above 10, is at least 1, never goes down from a valid quantity (so 10 stays 10), and is one more below 10 |
| ChestCalls.QuantityButtonsInverse | app/components/ChestPurchaseAndClaim.tsx:66-79 | inside [1, 10] each button undoes the other wherever the other moved |
| ChestCalls.PurchaseCalls | app/components/ChestPurchaseAndClaim.tsx:212-218 | exactly one call; `buyChest` exactly when the quantity is 1, otherwise `buyMultipleChests(quantity)`; it buys `quantity` chests and pays unit price × quantity |
| ChestCalls.Unclaimed | app/components/ChestPurchaseAndClaim.tsx:223 | the filter keeps exactly the unclaimed chests, each as many times as it occurs, and drops every claimed one |
| ChestCalls.ClaimCalls | app/components/ChestPurchaseAndClaim.tsx:220-240 | at most one call; none exactly when every chest is claimed (no chests included); `claimPrize(i)` for a single unclaimed chest `i`; `claimAllPrizes` for several |
| ChestCalls.ClaimCallsTargetUnclaimed | app/components/ChestPurchaseAndClaim.tsx:220-240 | whichever shape it takes, the claim call set claims exactly the unclaimed chests |
| ChestSession.FindPrize | app/components/ChestPurchaseAndClaim.tsx:317 | a prize is found exactly when some prize has the chest's index, and it is the first such prize |
| ChestSession.ChestRowOf | app/components/ChestPurchaseAndClaim.tsx:316-363 | a row shows a countdown exactly when its chest is unclaimed (claimed supersedes expired), and that countdown runs from the chest's purchase block over the 256-block claim window; it shows a badge exactly when the chest is claimed and a prize matches, in that prize's tier |
| ChestSession.ChestRows | app/components/ChestPurchaseAndClaim.tsx:316-364 | one row per chest, in order, with its index and flag; no row shows both a countdown and a badge; a row with neither has no matching prize; a list with no claimed chest shows no badge |
| ChestSession.AddToTotal | app/components/ChestPurchaseAndClaim.tsx:166-169 | the updater reads a missing total as zero, adds the amount, and always leaves a total |
| ChestSession.TotalAfter | app/components/ChestPurchaseAndClaim.tsx:166-169 | the chained total updaters, one per prize in order; the total is missing afterwards exactly when it was missing and no prize came; TotalAfterSum gives its value |
| ChestSession.TotalAfterSum | app/components/ChestPurchaseAndClaim.tsx:166-169 | after the chained updaters the total is unchanged when no prize came; otherwise it is the old total (missing read as 0) plus the sum of the prizes |
| ChestSession.TotalTracksAppend | app/components/ChestPurchaseAndClaim.tsx:166-171 | appending prizes and running their updaters keeps the total equal to the sum of the prizes since the last reset, and missing exactly when there are none |
| ChestSession.QueueStep | app/components/ChestPurchaseAndClaim.tsx:166-180 | defines the two updaters one prize queues, the total's and the chest list's, applied to the pending pair |
| ChestSession.Queued | app/components/ChestPurchaseAndClaim.tsx:166-180 | the whole per-prize queue in order; it keeps the chest list's length and leaves a total unless there was none and no prize came; QueuedParts splits it into TotalAfter and MarkAll |
| ChestSession.QueuedParts | app/components/ChestPurchaseAndClaim.tsx:166-180 | the queued updaters build the total and the chest list independently: the total of the chained updaters and the chest list of all marks |
| ChestSession.Session.Total | app/components/ChestPurchaseAndClaim.tsx:167 | defines the running total with a missing total read as zero; Session.Valid keeps it equal to the sum of the prizes since the last reset (TotalTracksAppend) |
| ChestSession.Session.constructor | app/components/ChestPurchaseAndClaim.tsx:94-104 | the initial state: no chests, nothing to claim, no total, quantity 1, no prizes, no timer |
| ChestSession.Session.OnStatus | app/components/ChestPurchaseAndClaim.tsx:106-210 | pending/building set in-progress; error/legacy clear it; success applies the first receipt, or with no receipt sets only in-progress; other statuses change nothing; the session invariant is kept |
| ChestSession.Session.OnTransactionPending | app/components/ChestPurchaseAndClaim.tsx:110-113 | sets in-progress and nothing else |
| ChestSession.Session.OnError | app/components/ChestPurchaseAndClaim.tsx:205-208 | clears in-progress and nothing else |
| ChestSession.Session.OnSuccess | app/components/ChestPurchaseAndClaim.tsx:114-203 | with no receipt, only in-progress is set (reading the missing receipt fails); otherwise the first receipt is applied as ReceiptApplied describes; the invariant is kept |
| ChestSession.Session.ApplyReceipt | app/components/ChestPurchaseAndClaim.tsx:116-203 | the new state: the hash; the prizes appended; the total advanced by the prizes' updaters; the new chests if any were bought, otherwise the old chests marked by the prizes (ChestsAfter); the special flag from the new chests; claiming closed by any prize; in-progress only when chests were bought and no prize came; one timer per purchase |
| ChestSession.Session.Commit | app/components/ChestPurchaseAndClaim.tsx:187-202 | the final updates: canClaim and in-progress cleared by prizes; the new chests replace the list, fix the special flag and schedule the timer; without purchases in-progress is cleared; the total keeps tracking the prizes since the reset and no chest is left claimed |
| ChestSession.Session.CollectPurchases | app/components/ChestPurchaseAndClaim.tsx:124-144 | the loop collects exactly pass 1's chests |
| ChestSession.Session.CollectPrizes | app/components/ChestPurchaseAndClaim.tsx:146-185 | the loop collects exactly the positionally matched prizes, and the total and chest list it leaves are those of the prizes' queued updaters |
| ChestSession.Session.TimerFired | app/components/ChestPurchaseAndClaim.tsx:196-199 | the delayed callback opens claiming and clears in-progress; nothing else changes |
| ChestSession.Session.Reset | app/components/ChestPurchaseAndClaim.tsx:242-248 | clears the chests, canClaim, the total, the special flag and the hash; keeps the prize list, the quantity, in-progress and any pending timer; the invariant is kept |
| ChestSession.Session.DecrementQuantityPressed | app/components/ChestPurchaseAndClaim.tsx:66 | the quantity after "-" is DecrementQuantity of the old one; nothing else changes |
| ChestSession.Session.IncrementQuantityPressed | app/components/ChestPurchaseAndClaim.tsx:77 | the quantity after "+" is IncrementQuantity of the old one; nothing else changes |
| ChestSession.Session.CurrentScreen | app/components/ChestPurchaseAndClaim.tsx:260-505 | purchase screen exactly with no chests; claim screen exactly with chests and claiming open, with one row per chest (countdown iff unclaimed), "play again" exactly when all are claimed, otherwise one claim call disabled while in progress; secured screen exactly with chests, claiming closed and a total, showing the total only for more than one prize. The claim screen's rows are ChestRows of the chests and prizes; "play again" carries the running total; the claim transaction carries exactly ClaimCalls of the chests; the waiting screen carries the special flag |
| ChestSession.Session.ClaimScreenNeverSettles | app/components/ChestPurchaseAndClaim.tsx:316-388 | as written, an open claim screen always offers the claim transaction, and every row shows its countdown and no badge |
| BlockCountdown.BlocksLeft | app/components/BlockCountdown.tsx:22 | blocks left are at most zero exactly when the height reached purchase block + window |
| BlockCountdown.TimeLeftFor | app/components/BlockCountdown.tsx:22-32 | "Expired" exactly when at most zero blocks are left; otherwise seconds < 60 and 60·minutes + seconds = 2·blocks left |
| BlockCountdown.TimeLeftInjective | app/components/BlockCountdown.tsx:28-32 | two different positive block counts never show the same text |
| BlockCountdown.TimeLeftMonotone | app/components/BlockCountdown.tsx:28-32 | more blocks left never shows less time |
| BlockCountdown.ColorFor | app/components/BlockCountdown.tsx:47-53 | red exactly at ≤ 0, green exactly above 100, pulsing red only up to 50, yellow only above 50 |
| BlockCountdown.ColorMonotone | app/components/BlockCountdown.tsx:47-53 | fewer blocks left never gives a calmer colour |
| BlockCountdown.ColorAgreesWithText | app/components/BlockCountdown.tsx:23-25 | for one block count, red exactly when the text is "Expired" |
| BlockCountdown.Countdown.constructor | app/components/BlockCountdown.tsx:10-11 | starts at height 0 with no text |
| BlockCountdown.Countdown.Poll | app/components/BlockCountdown.tsx:17-36 | a failed fetch keeps height and text; a fetched height is recorded and the text becomes the one for its blocks left; consistency is kept |
| BlockCountdown.Countdown.Color | app/components/BlockCountdown.tsx:47-53 | the colour for the held height's blocks left: red exactly when the height reached the deadline, pulsing red exactly with 1 to 50 blocks to go, yellow exactly with 51 to 100, green exactly with more than 100 |
| BlockCountdown.Countdown.ColorMatchesText | app/components/BlockCountdown.tsx:48-49 | once a height arrived, the colour is red exactly when the text says "Expired" |
| WinningHistory.RenderableStamp | app/components/WinningHistory.tsx:53 | defines when a timestamp in seconds makes a date whose ISO rendering does not throw: at most 8.64·10^15 ms from the epoch either way; DecodeWinning drops the other logs |
| WinningHistory.DecodeWinning | app/components/WinningHistory.tsx:41-59 | a log yields a winning exactly when it decodes to PrizeAwarded and its timestamp parses to a renderable date; the winning carries hash, prize, flag, milliseconds and player |
| WinningHistory.DecodeAll | app/components/WinningHistory.tsx:40-61 | at most one winning per log |
| WinningHistory.DecodeAllAppend | app/components/WinningHistory.tsx:40-61 | decoding concatenated logs concatenates the results: one failing log never aborts the rest |
| WinningHistory.DecodeAllMembers | app/components/WinningHistory.tsx:40-61 | a winning is kept exactly when some log decodes to it |
| WinningHistory.StepsDownNewestFirst | app/components/WinningHistory.tsx:62 | stepwise non-increasing timestamps mean non-increasing between any two entries |
| WinningHistory.Insert | app/components/WinningHistory.tsx:62 | insertion adds exactly the one entry (as a multiset) and puts either it or the old head first |
| WinningHistory.InsertStepsDown | app/components/WinningHistory.tsx:62 | inserting into a newest-first list keeps it newest first |
| WinningHistory.WithStampCons | app/components/WinningHistory.tsx:62 | the entries of one timestamp in a list with a new head |
| WinningHistory.InsertStable | app/components/WinningHistory.tsx:62 | inserting keeps the order of entries with equal timestamps |
| WinningHistory.SortNewestFirst | app/components/WinningHistory.tsx:62 | the result is newest first and a permutation of the input |
| WinningHistory.SortStable | app/components/WinningHistory.tsx:62 | entries with equal timestamps keep their input order |
| WinningHistory.ProcessHistory | app/components/WinningHistory.tsx:40-62 | the history is newest first and a permutation of the decoded winnings |
| WinningHistory.TotalPages | app/components/WinningHistory.tsx:76 | at least one page, exactly one for no items, enough pages for all items, and no empty last page when there are items |
| WinningHistory.PageSlice | app/components/WinningHistory.tsx:77-78 | the items at start + k, five of them or as many as remain after the start (none past the end) |
| WinningHistory.PageCovers | app/components/WinningHistory.tsx:76-78 | item i is on page i div 5 + 1, at position i mod 5, and that page is within range |
| WinningHistory.PreviousPage | app/components/WinningHistory.tsx:147 | never below page 1, never forward, one back above 1 |
| WinningHistory.NextPage | app/components/WinningHistory.tsx:157 | never past the last page, never back from a page in range (so the last page stays), at least 1, one on below the last |
| WinningHistory.PageButtonsInverse | app/components/WinningHistory.tsx:147-157 | inside the range each button undoes the other wherever the other moved |
| WinningHistory.Abbreviate | app/components/WinningHistory.tsx:129 | the first six characters, "...", then the last four, each clamped to the string |
| WinningHistory.History.constructor | app/components/WinningHistory.tsx:20-22 | starts empty, loading, on page 1 |
| WinningHistory.History.FetchSettled | app/components/WinningHistory.tsx:34-69 | a failed fetch or status "0" keeps the winnings; otherwise they become the processed result; loading ends either way; the page stays in range |
| WinningHistory.History.PreviousPressed | app/components/WinningHistory.tsx:147 | the page becomes PreviousPage of the old one and stays in range |
| WinningHistory.History.NextPressed | app/components/WinningHistory.tsx:157 | the page becomes NextPage of the old one and stays in range |
| WinningHistory.History.Displayed | app/components/WinningHistory.tsx:77-78 | the current page's slice of the winnings: five items, or as many as remain from the page's start |
| WinningHistory.History.View | app/components/WinningHistory.tsx:103-170 | loading notice exactly while loading; empty notice exactly when the page has no items; otherwise one row per displayed item (its prize in its colour tier, the winner abbreviated), and page controls exactly with more than one page, previous disabled on page 1 and next on the last |

## Left out

- Floating point. The source sums `formatEther` strings with `Number` and `toFixed(4)` at app/components/ChestPurchaseAndClaim.tsx:166-169, and builds the purchase value with `parseEther` of a float product at :217. The model keeps exact wei, so that rounding drift is not modelled. The prize tiers (app/components/WinningHistory.tsx:89, app/components/ChestPurchaseAndClaim.tsx:339-342) compare a float parsed from the `formatEther` string. Near a threshold that float can round up: 99999999999999999 wei formats as "0.099999999999999999", which parses to 0.1 and is coloured purple. PrizeTiers.PrizeColor compares exact wei and gives yellow.
- The secured-treasure screen picks colours by comparing amount strings lexicographically (app/components/ChestPurchaseAndClaim.tsx:437-440). That is a string order, not the numeric tiers, and the model does not carry a colour for those rows.
- USD conversion, the price feed and every text, heading and style of the rendering are presentation only.
- Network and wallet I/O become parameters:
  - the explorer fetch; `FetchSettled` takes its outcome;
  - the height source; `Poll` takes its result;
  - the transaction component; its lifecycle notifications are method calls.
- Real timers become explicit calls: the 15-second callback is `TimerFired`, and each 2-second interval tick is a `Poll`. The countdown restarting when its props change is not modelled.
- `Number(...)` of block numbers and indices loses precision above 2^53. The model uses exact naturals.
- ABI encoding and decoding are left out. Decoding is the abstract `Decoder`, and calls are the `Call` datatype. The history's `parseInt` of the timestamp is an `Option<int>` input, so its hex and decimal parsing is not modelled.
- A `result` field that is present but not an array is not modelled; `Fetched.result` is an optional list of logs.
- Console logging is left out.
- app/components/AdminPanel.tsx, app/page.tsx, app/components/ContractInfo.tsx, app/components/GameRules.tsx, app/layout.tsx, app/hooks/useEthPrice.ts and app/hooks/useTransactionDetails.ts are not part of this model. They hold wallet gating, balance and price polling, static text, and an unfinished details hook.
- WinningHistory.SortNewestFirst: this insertion sort stands for the engine's stable sort with the comparator `b − a` on milliseconds. It is proved sorted, a permutation and stable, which determines the result.
