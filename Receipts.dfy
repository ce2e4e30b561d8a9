/** The two passes over a confirmed receipt's logs: pass 1 collects the purchased chests,
    pass 2 collects the awarded prizes and matches the k-th prize to the k-th purchase of the
    same receipt. The functions here are the specification the session's methods are proved
    against; each recurses on the last log, as the loops push one entry per log. */
module Receipts {
  import opened Wrappers
  import opened Events

  /** A chest of the current session. `index` is the contract's chest index. */
  datatype Chest = Chest(index: nat, blockNumber: nat, special: bool, claimed: bool)

  /** A prize shown to the player; `chestIndex` is `None` when no purchase of the same
      receipt stands at the prize's position. */
  datatype PrizeInfo = PrizeInfo(amount: nat, isSpecial: bool, txHash: string, chestIndex: Option<nat>)

  /** A decoded PrizeAwarded event with the hash of the transaction its log belongs to. */
  datatype Award = Award(amount: nat, isSpecial: bool, txHash: string)

  /** A confirmed transaction's receipt. */
  datatype Receipt = Receipt(transactionHash: string, logs: seq<RawLog>)

  /** The chest pass 1 records for one log, if the log decodes to a ChestPurchased event. */
  function PurchaseOf(log: RawLog, decode: Decoder): (r: Option<Chest>)
    ensures r.Some? <==> decode(log).Some? && decode(log).value.ChestPurchased?
    ensures r.Some? ==> var e := decode(log).value;
      r.value == Chest(e.chestIndex, e.blockNumber, e.special, false)
  {
    match decode(log)
    case Some(ChestPurchased(_, blockNumber, special, chestIndex)) =>
      Some(Chest(chestIndex, blockNumber, special, false))
    case _ => None
  }

  /** The award pass 2 records for one log, if the log decodes to a PrizeAwarded event. */
  function AwardOf(log: RawLog, decode: Decoder): (r: Option<Award>)
    ensures r.Some? <==> decode(log).Some? && decode(log).value.PrizeAwarded?
    ensures r.Some? ==> var e := decode(log).value;
      r.value == Award(e.prize, e.special, log.transactionHash)
  {
    match decode(log)
    case Some(PrizeAwarded(_, prize, special)) => Some(Award(prize, special, log.transactionHash))
    case _ => None
  }

  /** Pass 1: the chests of every log that decodes to a ChestPurchased event, in log order. */
  function Purchases(logs: seq<RawLog>, decode: Decoder): (r: seq<Chest>)
    ensures |r| <= |logs|
    ensures forall k | 0 <= k < |r| :: !r[k].claimed
  {
    if logs == [] then []
    else
      var init := Purchases(logs[..|logs| - 1], decode);
      match PurchaseOf(logs[|logs| - 1], decode)
      case Some(c) => init + [c]
      case None => init
  }

  /** Pass 2, before matching: the awards of every log that decodes to a PrizeAwarded event, in log order. */
  function Awards(logs: seq<RawLog>, decode: Decoder): (r: seq<Award>)
    ensures |r| <= |logs|
  {
    if logs == [] then []
    else
      var init := Awards(logs[..|logs| - 1], decode);
      match AwardOf(logs[|logs| - 1], decode)
      case Some(a) => init + [a]
      case None => init
  }

  /** The chest index of the purchase at position `k`, if there is one (`newChests[k]?.index`). */
  function ChestIndexAt(purchases: seq<Chest>, k: nat): Option<nat> {
    if k < |purchases| then Some(purchases[k].index) else None
  }

  /** Pass 2's matching: each award in turn takes the chest index at the position given by the
      number of prizes already collected. */
  function Attach(awards: seq<Award>, purchases: seq<Chest>): (r: seq<PrizeInfo>)
    ensures |r| == |awards|
  {
    if awards == [] then []
    else
      var init := Attach(awards[..|awards| - 1], purchases);
      var a := awards[|awards| - 1];
      init + [PrizeInfo(a.amount, a.isSpecial, a.txHash, ChestIndexAt(purchases, |init|))]
  }

  /** One more log extends the matched prizes by that log's award, if it has one, matched to
      the purchase at the position of the prizes collected before it. */
  lemma PrizeStep(logs: seq<RawLog>, decode: Decoder, purchases: seq<Chest>, i: nat)
    requires i < |logs|
    ensures var before := Attach(Awards(logs[..i], decode), purchases);
      Attach(Awards(logs[..i + 1], decode), purchases) ==
        match AwardOf(logs[i], decode)
        case Some(a) => before + [PrizeInfo(a.amount, a.isSpecial, a.txHash, ChestIndexAt(purchases, |before|))]
        case None => before
  {
    assert logs[..i + 1][..i] == logs[..i];
    var awards := Awards(logs[..i], decode);
    match AwardOf(logs[i], decode)
    case Some(a) =>
      assert (awards + [a])[..|awards|] == awards;
    case None =>
  }

  /** The prizes a receipt yields, matched against the purchases of that same receipt. */
  function ReceiptPrizes(logs: seq<RawLog>, decode: Decoder): (r: seq<PrizeInfo>)
    ensures |r| == |Awards(logs, decode)|
  {
    Attach(Awards(logs, decode), Purchases(logs, decode))
  }

  /** One queued chest-list update: the chests whose index equals `target` become claimed. */
  function MarkClaimed(chests: seq<Chest>, target: Option<nat>): (r: seq<Chest>)
    ensures |r| == |chests|
  {
    seq(|chests|, j requires 0 <= j < |chests| =>
      if Some(chests[j].index) == target then chests[j].(claimed := true) else chests[j])
  }

  /** All queued chest-list updates of pass 2, one per prize, applied in order. */
  function MarkAll(chests: seq<Chest>, prizes: seq<PrizeInfo>): (r: seq<Chest>)
    ensures |r| == |chests|
  {
    if prizes == [] then chests
    else MarkClaimed(MarkAll(chests, prizes[..|prizes| - 1]), prizes[|prizes| - 1].chestIndex)
  }

  /** The sum of the prize amounts, in wei. */
  function SumAmounts(prizes: seq<PrizeInfo>): nat {
    if prizes == [] then 0 else SumAmounts(prizes[..|prizes| - 1]) + prizes[|prizes| - 1].amount
  }

  /** Whether some chest is special (`newChests.some(chest => chest.special)`). */
  predicate AnySpecial(chests: seq<Chest>) {
    exists k | 0 <= k < |chests| :: chests[k].special
  }

  // ---------------------------------------------------------------------------------------
  // Properties of the two passes

  /** Pass 1 over two stretches of logs is pass 1 over each stretch, concatenated: a log
      never affects what is collected from the other logs. */
  lemma {:induction false} PurchasesAppend(a: seq<RawLog>, b: seq<RawLog>, decode: Decoder)
    ensures Purchases(a + b, decode) == Purchases(a, decode) + Purchases(b, decode)
  {
    if b == [] {
      assert a + b == a;
    } else {
      var b' := b[..|b| - 1];
      assert (a + b)[..|a + b| - 1] == a + b';
      assert (a + b)[|a + b| - 1] == b[|b| - 1];
      PurchasesAppend(a, b', decode);
    }
  }

  /** The same for the awards of pass 2. */
  lemma {:induction false} AwardsAppend(a: seq<RawLog>, b: seq<RawLog>, decode: Decoder)
    ensures Awards(a + b, decode) == Awards(a, decode) + Awards(b, decode)
  {
    if b == [] {
      assert a + b == a;
    } else {
      var b' := b[..|b| - 1];
      assert (a + b)[..|a + b| - 1] == a + b';
      assert (a + b)[|a + b| - 1] == b[|b| - 1];
      AwardsAppend(a, b', decode);
    }
  }

  /** A log that fails to decode is skipped, and the logs after it are still processed. */
  lemma FailedLogSkipped(a: seq<RawLog>, bad: RawLog, b: seq<RawLog>, decode: Decoder)
    requires decode(bad).None?
    ensures Purchases(a + [bad] + b, decode) == Purchases(a, decode) + Purchases(b, decode)
    ensures Awards(a + [bad] + b, decode) == Awards(a, decode) + Awards(b, decode)
  {
    PurchasesAppend(a + [bad], b, decode);
    PurchasesAppend(a, [bad], decode);
    AwardsAppend(a + [bad], b, decode);
    AwardsAppend(a, [bad], decode);
    assert [bad][..0] == [];
  }

  /** Pass 1 keeps exactly the chests of the ChestPurchased logs, in log order: the k-th
      chest comes from some log, and the chests before it from earlier logs. */
  lemma {:induction false} PurchasesFromLogs(logs: seq<RawLog>, decode: Decoder, k: nat)
    requires k < |Purchases(logs, decode)|
    ensures exists i | 0 <= i < |logs| ::
      PurchaseOf(logs[i], decode) == Some(Purchases(logs, decode)[k])
      && |Purchases(logs[..i], decode)| == k
  {
    var n := |logs|;
    var init := Purchases(logs[..n - 1], decode);
    assert logs[..n - 1][..n - 1] == logs[..n - 1];
    if k < |init| {
      PurchasesFromLogs(logs[..n - 1], decode, k);
      var i :| 0 <= i < n - 1 && PurchaseOf(logs[..n - 1][i], decode) == Some(init[k])
        && |Purchases(logs[..n - 1][..i], decode)| == k;
      assert logs[..n - 1][..i] == logs[..i];
      assert Purchases(logs, decode)[k] == init[k];
    } else {
      assert PurchaseOf(logs[n - 1], decode) == Some(Purchases(logs, decode)[k]);
    }
  }

  /** Positional correspondence: the k-th prize carries the k-th award's amount, flag and hash,
      and the index of the k-th purchase, or none when there are fewer purchases. */
  lemma {:induction false} AttachPositional(awards: seq<Award>, purchases: seq<Chest>, k: nat)
    requires k < |awards|
    ensures Attach(awards, purchases)[k] ==
      PrizeInfo(awards[k].amount, awards[k].isSpecial, awards[k].txHash,
                if k < |purchases| then Some(purchases[k].index) else None)
  {
    var n := |awards|;
    if k < n - 1 {
      AttachPositional(awards[..n - 1], purchases, k);
    }
  }

  /** The prizes' total is the total of the awards they come from. */
  lemma {:induction false} AttachSum(awards: seq<Award>, purchases: seq<Chest>)
    ensures SumAmounts(Attach(awards, purchases)) == AwardTotal(awards)
  {
    if awards != [] {
      var r := Attach(awards, purchases);
      assert r[..|r| - 1] == Attach(awards[..|awards| - 1], purchases);
      AttachSum(awards[..|awards| - 1], purchases);
    }
  }

  /** The sum of the award amounts, in wei. */
  function AwardTotal(awards: seq<Award>): nat {
    if awards == [] then 0 else AwardTotal(awards[..|awards| - 1]) + awards[|awards| - 1].amount
  }

  /** Summing is additive over concatenation. */
  lemma {:induction false} SumAmountsAppend(a: seq<PrizeInfo>, b: seq<PrizeInfo>)
    ensures SumAmounts(a + b) == SumAmounts(a) + SumAmounts(b)
  {
    if b == [] {
      assert a + b == a;
    } else {
      assert (a + b)[..|a + b| - 1] == a + b[..|b| - 1];
      SumAmountsAppend(a, b[..|b| - 1]);
    }
  }

  /** The effect of the queued updates: a chest is claimed afterwards exactly when it was
      claimed before or some prize carries its index; nothing else about any chest changes. */
  lemma {:induction false} MarkAllEffect(chests: seq<Chest>, prizes: seq<PrizeInfo>, j: nat)
    requires j < |chests|
    ensures MarkAll(chests, prizes)[j] == chests[j].(claimed := chests[j].claimed ||
      exists k | 0 <= k < |prizes| :: prizes[k].chestIndex == Some(chests[j].index))
  {
    if prizes != [] {
      var init := prizes[..|prizes| - 1];
      MarkAllEffect(chests, init, j);
      assert forall k | 0 <= k < |init| :: init[k] == prizes[k];
      if exists k | 0 <= k < |prizes| :: prizes[k].chestIndex == Some(chests[j].index) {
        var k :| 0 <= k < |prizes| && prizes[k].chestIndex == Some(chests[j].index);
        if k < |init| {
          assert init[k].chestIndex == Some(chests[j].index);
        }
      }
    }
  }

  /** Claimed is one-way under the queued updates. */
  lemma MarkAllMonotone(chests: seq<Chest>, prizes: seq<PrizeInfo>, j: nat)
    requires j < |chests| && chests[j].claimed
    ensures MarkAll(chests, prizes)[j].claimed
  {
    MarkAllEffect(chests, prizes, j);
  }

  /** As written: a receipt without purchase logs (a claim) yields prizes without a chest index,
      so its queued updates leave every chest as it was. */
  lemma ClaimOnlyReceiptMarksNothing(chests: seq<Chest>, logs: seq<RawLog>, decode: Decoder)
    requires Purchases(logs, decode) == []
    ensures forall k | 0 <= k < |ReceiptPrizes(logs, decode)| :: ReceiptPrizes(logs, decode)[k].chestIndex.None?
    ensures MarkAll(chests, ReceiptPrizes(logs, decode)) == chests
  {
    var prizes := ReceiptPrizes(logs, decode);
    forall k | 0 <= k < |prizes| ensures prizes[k].chestIndex.None? {
      AttachPositional(Awards(logs, decode), [], k);
    }
    forall j | 0 <= j < |chests| ensures MarkAll(chests, prizes)[j] == chests[j] {
      MarkAllEffect(chests, prizes, j);
    }
  }

  /** When a receipt has both a k-th award and a k-th purchase, its k-th prize carries the
      index of the k-th purchased chest. */
  lemma PositionalMatchIndex(logs: seq<RawLog>, decode: Decoder, k: nat)
    requires k < |Awards(logs, decode)| && k < |Purchases(logs, decode)|
    ensures ReceiptPrizes(logs, decode)[k].chestIndex == Some(Purchases(logs, decode)[k].index)
  {
    AttachPositional(Awards(logs, decode), Purchases(logs, decode), k);
  }

  /** No chest of the list is claimed. */
  predicate NoneClaimed(chests: seq<Chest>) {
    forall j | 0 <= j < |chests| :: !chests[j].claimed
  }

  /** The chest list a receipt leaves behind: the chests it bought when it bought some (the plain
      replacement comes after the queued marks), otherwise the old list under the receipt's
      queued marks. */
  function ChestsAfter(chests: seq<Chest>, logs: seq<RawLog>, decode: Decoder): seq<Chest> {
    var newChests := Purchases(logs, decode);
    if newChests != [] then newChests else MarkAll(chests, ReceiptPrizes(logs, decode))
  }

  /** As written, no receipt ever claims a chest: a list with no claimed chest keeps none. */
  lemma ReceiptLeavesChestsUnclaimed(chests: seq<Chest>, logs: seq<RawLog>, decode: Decoder)
    requires NoneClaimed(chests)
    ensures NoneClaimed(ChestsAfter(chests, logs, decode))
  {
    if Purchases(logs, decode) == [] {
      ClaimOnlyReceiptMarksNothing(chests, logs, decode);
    }
  }

  /** As written, a prize matched to a chest of its own receipt names a chest that the receipt
      leaves unclaimed: the chest's mark is overwritten by the replacement list. */
  lemma MatchedChestStaysUnclaimed(chests: seq<Chest>, logs: seq<RawLog>, decode: Decoder, k: nat)
    requires k < |Awards(logs, decode)| && k < |Purchases(logs, decode)|
    ensures k < |ChestsAfter(chests, logs, decode)|
    ensures ReceiptPrizes(logs, decode)[k].chestIndex == Some(ChestsAfter(chests, logs, decode)[k].index)
    ensures !ChestsAfter(chests, logs, decode)[k].claimed
  {
    PositionalMatchIndex(logs, decode, k);
  }
}
