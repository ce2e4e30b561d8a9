/** The purchase/claim session of the chest component: its state fields, one method per
    transaction-lifecycle notification, the delayed "claim open" timer, the reset, the
    quantity selector, and the screen the state selects. */
module ChestSession {
  import opened Wrappers
  import opened Events
  import opened Receipts
  import opened ChestCalls
  import opened PrizeTiers
  import BlockCountdown

  /** The prize badge of a claimed chest's row. */
  datatype PrizeBadge = PrizeBadge(amount: nat, tier: PrizeTier, txHash: string)

  /** The arguments a row passes to its countdown: the chest's purchase block and the claim
      window. */
  datatype CountdownArgs = CountdownArgs(purchaseBlock: nat, maxBlocks: nat)

  /** One row of the claim screen: a countdown for an unclaimed chest, a badge for a claimed one
      whose prize is known. */
  datatype ChestRow = ChestRow(index: nat, special: bool, countdown: Option<CountdownArgs>, badge: Option<PrizeBadge>)

  /** What the claim screen offers below the rows. */
  datatype ClaimOffer =
    | PlayAgain(totalClaimed: nat)                      // every chest claimed: the total and a reset button
    | ClaimTransaction(calls: seq<Call>, disabled: bool) // otherwise: the claim transaction

  /** The four screens of the component. */
  datatype Screen =
    | PurchaseScreen(quantity: nat, buyDisabled: bool)
    | ClaimScreen(rows: seq<ChestRow>, offer: ClaimOffer)
    | SecuredScreen(prizes: seq<PrizeInfo>, total: nat, showTotal: bool)
    | UnlockingScreen(special: bool)

  /** The first prize whose chest index is `index` (`individualPrizes.find(...)`). */
  function FindPrize(prizes: seq<PrizeInfo>, index: nat): (r: Option<PrizeInfo>)
    ensures r.Some? <==> exists k | 0 <= k < |prizes| :: prizes[k].chestIndex == Some(index)
    ensures r.Some? ==>
      exists k | 0 <= k < |prizes| ::
        && prizes[k] == r.value
        && prizes[k].chestIndex == Some(index)
        && forall k' | 0 <= k' < k :: prizes[k'].chestIndex != Some(index)
  {
    if prizes == [] then None
    else if prizes[0].chestIndex == Some(index) then Some(prizes[0])
    else
      var r := FindPrize(prizes[1..], index);
      assert forall k | 1 <= k < |prizes| :: prizes[k] == prizes[1..][k - 1];
      r
  }

  /** The row of one chest. A claimed chest shows no countdown, so being claimed supersedes
      being expired; its badge shows the matched prize in that prize's colour tier. */
  function ChestRowOf(chest: Chest, prizes: seq<PrizeInfo>): (r: ChestRow)
    ensures r.index == chest.index && r.special == chest.special
    ensures r.countdown.Some? <==> !chest.claimed
    ensures r.countdown.Some? ==> r.countdown.value == CountdownArgs(chest.blockNumber, BlockCountdown.ClaimWindow)
    ensures r.badge.Some? <==> chest.claimed && FindPrize(prizes, chest.index).Some?
    ensures r.badge.Some? ==> var p := FindPrize(prizes, chest.index).value;
      r.badge.value == PrizeBadge(p.amount, PrizeColor(p.amount), p.txHash)
  {
    var found := FindPrize(prizes, chest.index);
    var badge := if chest.claimed && found.Some?
      then Some(PrizeBadge(found.value.amount, PrizeColor(found.value.amount), found.value.txHash))
      else None;
    var countdown := if chest.claimed then None else Some(CountdownArgs(chest.blockNumber, BlockCountdown.ClaimWindow));
    ChestRow(chest.index, chest.special, countdown, badge)
  }

  /** The rows of the claim screen, one per chest, in order. No row shows both a countdown and
      a prize badge, and a list with no claimed chest shows no badge at all. */
  function ChestRows(chests: seq<Chest>, prizes: seq<PrizeInfo>): (r: seq<ChestRow>)
    ensures |r| == |chests|
    ensures forall j | 0 <= j < |chests| :: r[j].index == chests[j].index && r[j].special == chests[j].special
    ensures forall j | 0 <= j < |chests| :: !(r[j].countdown.Some? && r[j].badge.Some?)
    ensures forall j | 0 <= j < |chests| :: r[j].countdown.Some? || r[j].badge.Some? || FindPrize(prizes, chests[j].index).None?
    ensures (forall j | 0 <= j < |chests| :: !chests[j].claimed) ==> forall j | 0 <= j < |chests| :: r[j].badge.None?
  {
    seq(|chests|, j requires 0 <= j < |chests| => ChestRowOf(chests[j], prizes))
  }

  /** The updater queued for each prize: the previous total, `null` read as zero, plus the amount. */
  function AddToTotal(prev: Option<nat>, amount: nat): (r: Option<nat>)
    ensures r.Some? && r.value == prev.GetOr(0) + amount
  {
    Some((if prev.Some? then prev.value else 0) + amount)
  }

  /** The total after the updaters of `prizes` ran in order on `total`. */
  function TotalAfter(total: Option<nat>, prizes: seq<PrizeInfo>): (r: Option<nat>)
    ensures r.None? <==> total.None? && prizes == []
  {
    if prizes == [] then total
    else AddToTotal(TotalAfter(total, prizes[..|prizes| - 1]), prizes[|prizes| - 1].amount)
  }

  /** The chained updaters leave the total alone when no prize came, and otherwise add the sum of
      the prizes to the old total. */
  lemma {:induction false} TotalAfterSum(total: Option<nat>, prizes: seq<PrizeInfo>)
    ensures TotalAfter(total, prizes) == if prizes == [] then total else Some(total.GetOr(0) + SumAmounts(prizes))
  {
    if prizes != [] {
      TotalAfterSum(total, prizes[..|prizes| - 1]);
    }
  }

  /** Appending prizes to the list keeps the running total equal to the sum of the prizes
      since the last reset, once the total has taken their updaters. */
  lemma TotalTracksAppend(list: seq<PrizeInfo>, first: nat, total: Option<nat>, prizes: seq<PrizeInfo>)
    requires first <= |list|
    requires total.None? <==> first == |list|
    requires total.GetOr(0) == SumAmounts(list[first..])
    ensures TotalAfter(total, prizes).None? <==> first == |list + prizes|
    ensures TotalAfter(total, prizes).GetOr(0) == SumAmounts((list + prizes)[first..])
  {
    TotalAfterSum(total, prizes);
    SumAmountsAppend(list[first..], prizes);
    assert (list + prizes)[first..] == list[first..] + prizes;
  }

  /** The pending total and chest list the queued per-prize updaters act on. */
  datatype Pending = Pending(total: Option<nat>, chests: seq<Chest>)

  /** The two updaters queued for one prize. */
  function QueueStep(p: Pending, prize: PrizeInfo): Pending {
    Pending(AddToTotal(p.total, prize.amount), MarkClaimed(p.chests, prize.chestIndex))
  }

  /** The updaters of all prizes, in order. */
  function Queued(p: Pending, prizes: seq<PrizeInfo>): (r: Pending)
    ensures |r.chests| == |p.chests|
    ensures r.total.None? <==> p.total.None? && prizes == []
  {
    if prizes == [] then p else QueueStep(Queued(p, prizes[..|prizes| - 1]), prizes[|prizes| - 1])
  }

  /** The queued updaters build the total and the chest list independently of each other. */
  lemma {:induction false} QueuedParts(p: Pending, prizes: seq<PrizeInfo>)
    ensures Queued(p, prizes).total == TotalAfter(p.total, prizes)
    ensures Queued(p, prizes).chests == MarkAll(p.chests, prizes)
  {
    if prizes != [] {
      QueuedParts(p, prizes[..|prizes| - 1]);
    }
  }

  /** The lifecycle notifications of the transaction component. */
  datatype LifecycleStatus =
    | Init
    | TransactionIdle
    | BuildingTransaction
    | TransactionPending
    | Success(transactionReceipts: seq<Receipt>)
    | Error
    | TransactionLegacyExecuted

  class Session {
    var purchasedChests: seq<Chest>
    var canClaim: bool
    var prizeAmount: Option<nat>          // `null` until a prize arrives, then the running total in wei
    var isSpecial: bool
    var txHash: Option<string>
    var transactionInProgress: bool
    var quantity: nat
    var individualPrizes: seq<PrizeInfo>
    var pendingTimers: nat                // scheduled 15-second "claim open" callbacks not yet fired
    ghost var firstSinceReset: nat        // where the prizes counted in `prizeAmount` start

    /** The running total, with `null` read as zero (`prev ? Number(prev) : 0`). */
    function Total(): nat
      reads this
    {
      prizeAmount.GetOr(0)
    }

    /** The quantity stays in [1, 10]; the running total is the sum of the prizes received since
        the last reset, and is `null` exactly when there are none; no chest is ever claimed, as
        the receipt handling as written never leaves a claimed chest in the list. */
    ghost predicate Valid()
      reads this
    {
      && MinQuantity <= quantity <= MaxQuantity
      && firstSinceReset <= |individualPrizes|
      && (prizeAmount.None? <==> firstSinceReset == |individualPrizes|)
      && Total() == SumAmounts(individualPrizes[firstSinceReset..])
      && NoneClaimed(purchasedChests)
    }

    constructor ()
      ensures Valid()
      ensures purchasedChests == [] && !canClaim && prizeAmount == None && !isSpecial
      ensures txHash == None && !transactionInProgress && quantity == 1
      ensures individualPrizes == [] && pendingTimers == 0
    {
      purchasedChests, canClaim, prizeAmount, isSpecial := [], false, None, false;
      txHash, transactionInProgress, quantity := None, false, 1;
      individualPrizes, pendingTimers := [], 0;
      firstSinceReset := 0;
    }

    /** The lifecycle callback: one branch per notification; the others change nothing. */
    method OnStatus(status: LifecycleStatus, decode: Decoder)
      requires Valid()
      modifies this
      ensures Valid()
      ensures status.TransactionPending? || status.BuildingTransaction? ==> transactionInProgress
      ensures status.Error? || status.TransactionLegacyExecuted? ==> !transactionInProgress
      ensures status.Success? && status.transactionReceipts != [] ==>
        ReceiptApplied(status.transactionReceipts[0], decode)
      ensures status.Success? && status.transactionReceipts == [] ==>
        && transactionInProgress
        && purchasedChests == old(purchasedChests) && canClaim == old(canClaim)
        && prizeAmount == old(prizeAmount) && isSpecial == old(isSpecial) && txHash == old(txHash)
        && individualPrizes == old(individualPrizes) && pendingTimers == old(pendingTimers)
        && quantity == old(quantity)
      ensures !status.Success? ==>
        && purchasedChests == old(purchasedChests) && canClaim == old(canClaim)
        && prizeAmount == old(prizeAmount) && isSpecial == old(isSpecial) && txHash == old(txHash)
        && individualPrizes == old(individualPrizes) && pendingTimers == old(pendingTimers)
        && quantity == old(quantity)
      ensures status.Init? || status.TransactionIdle? ==> transactionInProgress == old(transactionInProgress)
    {
      match status
      case TransactionPending => OnTransactionPending();
      case BuildingTransaction => OnTransactionPending();
      case Success(transactionReceipts) => OnSuccess(transactionReceipts, decode);
      case Error => OnError();
      case TransactionLegacyExecuted => OnError();
      case _ =>
    }

    /** `transactionPending` and `buildingTransaction`. */
    method OnTransactionPending()
      modifies this
      ensures transactionInProgress
      ensures purchasedChests == old(purchasedChests) && canClaim == old(canClaim)
      ensures prizeAmount == old(prizeAmount) && isSpecial == old(isSpecial) && txHash == old(txHash)
      ensures quantity == old(quantity) && individualPrizes == old(individualPrizes)
      ensures pendingTimers == old(pendingTimers) && firstSinceReset == old(firstSinceReset)
    {
      transactionInProgress := true;
    }

    /** `error` and `transactionLegacyExecuted`. */
    method OnError()
      modifies this
      ensures !transactionInProgress
      ensures purchasedChests == old(purchasedChests) && canClaim == old(canClaim)
      ensures prizeAmount == old(prizeAmount) && isSpecial == old(isSpecial) && txHash == old(txHash)
      ensures quantity == old(quantity) && individualPrizes == old(individualPrizes)
      ensures pendingTimers == old(pendingTimers) && firstSinceReset == old(firstSinceReset)
    {
      transactionInProgress := false;
    }

    /** `success`. The in-progress flag is queued first; with no receipt, reading the first
        receipt's hash then fails and nothing else happens. */
    method OnSuccess(transactionReceipts: seq<Receipt>, decode: Decoder)
      requires Valid()
      modifies this
      ensures Valid()
      ensures transactionReceipts == [] ==>
        && transactionInProgress
        && purchasedChests == old(purchasedChests) && canClaim == old(canClaim)
        && prizeAmount == old(prizeAmount) && isSpecial == old(isSpecial) && txHash == old(txHash)
        && individualPrizes == old(individualPrizes) && pendingTimers == old(pendingTimers)
        && quantity == old(quantity)
      ensures transactionReceipts != [] ==> ReceiptApplied(transactionReceipts[0], decode)
    {
      transactionInProgress := true;
      if transactionReceipts == [] {
        return;
      }
      ApplyReceipt(transactionReceipts[0], decode);
    }

    /** The state after a success notification with `receipt` first, against the state before. */
    twostate predicate ReceiptApplied(receipt: Receipt, decode: Decoder)
      reads this
    {
      var newChests := Purchases(receipt.logs, decode);
      var prizes := ReceiptPrizes(receipt.logs, decode);
      && txHash == Some(receipt.transactionHash)
      && individualPrizes == old(individualPrizes) + prizes
      && prizeAmount == TotalAfter(old(prizeAmount), prizes)
      && purchasedChests == ChestsAfter(old(purchasedChests), receipt.logs, decode)
      && isSpecial == (if newChests != [] then AnySpecial(newChests) else old(isSpecial))
      && canClaim == (if prizes != [] then false else old(canClaim))
      && transactionInProgress == (newChests != [] && prizes == [])
      && pendingTimers == old(pendingTimers) + (if newChests != [] then 1 else 0)
      && quantity == old(quantity)
    }

    /** Both passes over the receipt's logs, then the final updates. */
    method ApplyReceipt(receipt: Receipt, decode: Decoder)
      requires Valid() && transactionInProgress
      modifies this
      ensures Valid()
      ensures ReceiptApplied(receipt, decode)
    {
      var newChests := CollectPurchases(receipt.logs, decode);
      var prizes, total, chests := CollectPrizes(receipt.logs, decode, newChests, prizeAmount, purchasedChests);
      ReceiptLeavesChestsUnclaimed(purchasedChests, receipt.logs, decode);
      assert (if newChests != [] then newChests else chests) == ChestsAfter(purchasedChests, receipt.logs, decode);
      if newChests == [] {
        assert NoneClaimed(chests);
      }
      Commit(receipt.transactionHash, newChests, prizes, total, chests);
    }

    /** The updates the batch applies once both passes are done: the hash, the queued prize
        updates (the total, the prize list and the chest list as pass 2 left them), then the
        updates that depend on what the passes found. The setters of the source run in one batch
        without reading state in between, so applying each as a field update in the source's
        order gives the state after the batch. */
    method Commit(hash: string, newChests: seq<Chest>, prizes: seq<PrizeInfo>, total: Option<nat>, chests: seq<Chest>)
      requires Valid() && transactionInProgress
      requires total == TotalAfter(prizeAmount, prizes)
      requires newChests != [] ==> NoneClaimed(newChests)
      requires newChests == [] ==> NoneClaimed(chests)
      modifies this
      ensures Valid()
      ensures txHash == Some(hash)
      ensures individualPrizes == old(individualPrizes) + prizes && prizeAmount == total
      ensures purchasedChests == (if newChests != [] then newChests else chests)
      ensures isSpecial == (if newChests != [] then AnySpecial(newChests) else old(isSpecial))
      ensures canClaim == (if prizes != [] then false else old(canClaim))
      ensures transactionInProgress == (newChests != [] && prizes == [])
      ensures pendingTimers == old(pendingTimers) + (if newChests != [] then 1 else 0)
      ensures quantity == old(quantity)
    {
      TotalTracksAppend(individualPrizes, firstSinceReset, prizeAmount, prizes);
      txHash, prizeAmount, individualPrizes := Some(hash), total, individualPrizes + prizes;
      purchasedChests := chests;
      if |prizes| > 0 {
        canClaim := false;
        transactionInProgress := false;
      }
      if |newChests| > 0 {
        purchasedChests := newChests;
        isSpecial := AnySpecial(newChests);
        pendingTimers := pendingTimers + 1;
      } else {
        transactionInProgress := false;
      }
    }

    /** Pass 2: the loop that collects one prize per PrizeAwarded log, matching it to the purchase
        at its position, and runs that prize's queued updates of the total and the chest list on
        the pending values they start from. The queued append to the prize list is applied by the
        caller as one concatenation, which gives the same list. */
    static method CollectPrizes(logs: seq<RawLog>, decode: Decoder, newChests: seq<Chest>,
                                total0: Option<nat>, chests0: seq<Chest>)
      returns (prizes: seq<PrizeInfo>, total: Option<nat>, chests: seq<Chest>)
      ensures prizes == Attach(Awards(logs, decode), newChests)
      ensures total == TotalAfter(total0, prizes)
      ensures chests == MarkAll(chests0, prizes)
    {
      prizes, total, chests := [], total0, chests0;
      for i := 0 to |logs|
        invariant prizes == Attach(Awards(logs[..i], decode), newChests)
        // the queued updaters so far, run on the values they start from
        invariant Pending(total, chests) == Queued(Pending(total0, chests0), prizes)
      {
        var log := logs[i];
        PrizeStep(logs, decode, newChests, i);
        match AwardOf(log, decode)
        case Some(award) =>
          var prizeInfo := PrizeInfo(award.amount, award.isSpecial, award.txHash,
                                     if |prizes| < |newChests| then Some(newChests[|prizes|].index) else None);
          assert (prizes + [prizeInfo])[..|prizes|] == prizes;
          prizes := prizes + [prizeInfo];
          total := AddToTotal(total, award.amount);
          chests := MarkClaimed(chests, prizeInfo.chestIndex);
        case _ =>
      }
      assert logs[..|logs|] == logs;
      QueuedParts(Pending(total0, chests0), prizes);
    }

    /** Pass 1: the loop that pushes one chest per ChestPurchased log. */
    static method CollectPurchases(logs: seq<RawLog>, decode: Decoder) returns (newChests: seq<Chest>)
      ensures newChests == Purchases(logs, decode)
    {
      newChests := [];
      for i := 0 to |logs|
        invariant newChests == Purchases(logs[..i], decode)
      {
        assert logs[..i + 1][..i] == logs[..i];
        match decode(logs[i])
        case Some(ChestPurchased(_, blockNumber, special, chestIndex)) =>
          newChests := newChests + [Chest(chestIndex, blockNumber, special, false)];
        case _ =>
      }
      assert logs[..|logs|] == logs;
    }

    /** One firing of the 15-second callback a purchase scheduled. */
    method TimerFired()
      requires pendingTimers > 0
      modifies this
      ensures canClaim && !transactionInProgress && pendingTimers == old(pendingTimers) - 1
      ensures purchasedChests == old(purchasedChests) && prizeAmount == old(prizeAmount)
      ensures isSpecial == old(isSpecial) && txHash == old(txHash) && quantity == old(quantity)
      ensures individualPrizes == old(individualPrizes) && firstSinceReset == old(firstSinceReset)
    {
      canClaim := true;
      transactionInProgress := false;
      pendingTimers := pendingTimers - 1;
    }

    /** "Play again": clears the chests, the claim flag, the total, the special flag and the
        hash. The prize list, the quantity, the in-progress flag and any scheduled callback stay. */
    method Reset()
      requires Valid()
      modifies this
      ensures Valid()
      ensures purchasedChests == [] && !canClaim && prizeAmount == None && !isSpecial && txHash == None
      ensures individualPrizes == old(individualPrizes) && quantity == old(quantity)
      ensures transactionInProgress == old(transactionInProgress) && pendingTimers == old(pendingTimers)
    {
      purchasedChests := [];
      canClaim := false;
      prizeAmount := None;
      isSpecial := false;
      txHash := None;
      firstSinceReset := |individualPrizes|;
    }

    /** The quantity selector's "-" button. */
    method DecrementQuantityPressed()
      requires Valid()
      modifies this
      ensures Valid() && quantity == DecrementQuantity(old(quantity))
      ensures purchasedChests == old(purchasedChests) && canClaim == old(canClaim)
      ensures prizeAmount == old(prizeAmount) && isSpecial == old(isSpecial) && txHash == old(txHash)
      ensures transactionInProgress == old(transactionInProgress)
      ensures individualPrizes == old(individualPrizes) && pendingTimers == old(pendingTimers)
    {
      quantity := DecrementQuantity(quantity);
    }

    /** The quantity selector's "+" button. */
    method IncrementQuantityPressed()
      requires Valid()
      modifies this
      ensures Valid() && quantity == IncrementQuantity(old(quantity))
      ensures purchasedChests == old(purchasedChests) && canClaim == old(canClaim)
      ensures prizeAmount == old(prizeAmount) && isSpecial == old(isSpecial) && txHash == old(txHash)
      ensures transactionInProgress == old(transactionInProgress)
      ensures individualPrizes == old(individualPrizes) && pendingTimers == old(pendingTimers)
    {
      quantity := IncrementQuantity(quantity);
    }

    /** The screen the state selects: purchase when there are no chests, the claim screen once
        claiming is open, the secured-treasure screen once a total exists, and otherwise the
        waiting screen. */
    function CurrentScreen(): (r: Screen)
      reads this
      ensures r.PurchaseScreen? <==> purchasedChests == []
      ensures r.PurchaseScreen? ==> r.quantity == quantity && (r.buyDisabled <==> transactionInProgress)
      ensures r.ClaimScreen? <==> purchasedChests != [] && canClaim
      ensures r.ClaimScreen? ==>
        && |r.rows| == |purchasedChests|
        && (forall j | 0 <= j < |r.rows| :: r.rows[j].countdown.Some? <==> !purchasedChests[j].claimed)
        && (r.offer.PlayAgain? <==> forall c | c in purchasedChests :: c.claimed)
        && r.rows == ChestRows(purchasedChests, individualPrizes)
        && (r.offer.PlayAgain? ==> r.offer.totalClaimed == Total())
        && (r.offer.ClaimTransaction? ==>
              && r.offer.calls == ClaimCalls(purchasedChests) && |r.offer.calls| == 1
              && (r.offer.disabled <==> transactionInProgress))
      ensures r.SecuredScreen? <==> purchasedChests != [] && !canClaim && prizeAmount.Some?
      ensures r.SecuredScreen? ==>
        && r.prizes == individualPrizes && r.total == Total()
        && (r.showTotal <==> |individualPrizes| > 1)
      ensures r.UnlockingScreen? ==> r.special == isSpecial
    {
      if purchasedChests == [] then PurchaseScreen(quantity, transactionInProgress)
      else if canClaim then
        var rows := ChestRows(purchasedChests, individualPrizes);
        var offer := if forall c | c in purchasedChests :: c.claimed
          then PlayAgain(Total())
          else ClaimTransaction(ClaimCalls(purchasedChests), transactionInProgress);
        ClaimScreen(rows, offer)
      else if prizeAmount.Some? then SecuredScreen(individualPrizes, Total(), |individualPrizes| > 1)
      else UnlockingScreen(isSpecial)
    }

    /** As written, the claim screen never reaches its settled branches: every row shows a
        countdown and no badge, and the offer is always the claim transaction, never "play
        again", since no chest of the session is ever marked claimed. */
    lemma ClaimScreenNeverSettles()
      requires Valid() && purchasedChests != [] && canClaim
      ensures CurrentScreen().ClaimScreen? && CurrentScreen().offer.ClaimTransaction?
      ensures forall j | 0 <= j < |CurrentScreen().rows| ::
        CurrentScreen().rows[j].countdown.Some? && CurrentScreen().rows[j].badge.None?
    {
      assert purchasedChests[0] in purchasedChests;
    }
  }
}
