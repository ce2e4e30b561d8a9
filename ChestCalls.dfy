/** The calls the session submits to the chest contract, as data rather than ABI bytes,
    and the quantity selector that feeds the purchase call. Every call goes to the one
    chest contract, so the destination is left implicit. */
module ChestCalls {
  import opened Wrappers
  import opened Receipts

  const MinQuantity: nat := 1
  const MaxQuantity: nat := 10

  /** The contract function a call invokes, with its arguments. */
  datatype CallData =
    | BuyChest
    | BuyMultipleChests(quantity: nat)
    | ClaimPrize(chestIndex: nat)
    | ClaimAllPrizes

  /** A call and the value in wei attached to it, if any. */
  datatype Call = Call(data: CallData, value: Option<nat>)

  /** The selector's "-" button: one less, never below one. */
  function DecrementQuantity(quantity: nat): (r: nat)
    ensures MinQuantity <= r
    ensures quantity <= MaxQuantity ==> r <= MaxQuantity
    ensures quantity > MinQuantity ==> r == quantity - 1
    ensures MinQuantity <= quantity ==> r <= quantity
  {
    if quantity - 1 > 1 then quantity - 1 else 1
  }

  /** The selector's "+" button: one more, never above ten. */
  function IncrementQuantity(quantity: nat): (r: nat)
    ensures r <= MaxQuantity
    ensures MinQuantity <= r
    ensures quantity < MaxQuantity ==> r == quantity + 1
    ensures quantity <= MaxQuantity ==> quantity <= r
  {
    if quantity + 1 < 10 then quantity + 1 else 10
  }

  /** Inside the range, each button undoes the other wherever the other moved. */
  lemma QuantityButtonsInverse(quantity: nat)
    requires MinQuantity <= quantity <= MaxQuantity
    ensures quantity < MaxQuantity ==> DecrementQuantity(IncrementQuantity(quantity)) == quantity
    ensures quantity > MinQuantity ==> IncrementQuantity(DecrementQuantity(quantity)) == quantity
  {
  }

  /** How many chests a call buys. */
  function ChestsBought(data: CallData): nat {
    match data
    case BuyChest => 1
    case BuyMultipleChests(q) => q
    case _ => 0
  }

  /** The purchase call set: a single call, `buyChest()` for one chest and
      `buyMultipleChests(quantity)` otherwise, paying the unit price for every chest. */
  function PurchaseCalls(quantity: nat, unitPrice: nat): (r: seq<Call>)
    ensures |r| == 1
    ensures r[0].data.BuyChest? <==> quantity == 1
    ensures r[0].data.BuyChest? || r[0].data.BuyMultipleChests?
    ensures ChestsBought(r[0].data) == quantity
    ensures r[0].value == Some(unitPrice * quantity)
  {
    var data := if quantity == 1 then BuyChest else BuyMultipleChests(quantity);
    [Call(data, Some(unitPrice * quantity))]
  }

  /** The chests not yet claimed, in order. */
  function Unclaimed(chests: seq<Chest>): (r: seq<Chest>)
    ensures |r| <= |chests|
    ensures forall c :: c in r <==> c in chests && !c.claimed
    ensures forall c :: multiset(r)[c] == if c.claimed then 0 else multiset(chests)[c]
  {
    if chests == [] then []
    else
      assert chests == [chests[0]] + chests[1..];
      if chests[0].claimed then Unclaimed(chests[1..])
      else [chests[0]] + Unclaimed(chests[1..])
  }

  /** The claim call set: nothing when no chest is left to claim, `claimPrize(index)` for a
      single unclaimed chest, and one `claimAllPrizes()` for several. */
  function ClaimCalls(chests: seq<Chest>): (r: seq<Call>)
    ensures |r| <= 1
    ensures r == [] <==> forall c | c in chests :: c.claimed
    ensures |Unclaimed(chests)| == 1 ==> r == [Call(ClaimPrize(Unclaimed(chests)[0].index), None)]
    ensures |Unclaimed(chests)| > 1 ==> r == [Call(ClaimAllPrizes, None)]
  {
    if |chests| == 0 then []
    else
      var unclaimed := Unclaimed(chests);
      assert unclaimed != [] ==> unclaimed[0] in unclaimed;
      if |unclaimed| > 1 then [Call(ClaimAllPrizes, None)]
      else if |unclaimed| == 1 then [Call(ClaimPrize(unclaimed[0].index), None)]
      else []
  }

  /** The chest indices a call set claims on the contract's side: `claimPrize(i)` claims `i`,
      and `claimAllPrizes()` is taken to claim every unclaimed chest of the session. The latter
      is an assumption about the contract, which is not part of this model, so the claim-all
      case of the lemma below holds by this definition. */
  function ClaimTargets(calls: seq<Call>, chests: seq<Chest>): set<nat> {
    if calls == [] then {}
    else
      var here := match calls[0].data
        case ClaimPrize(i) => {i}
        case ClaimAllPrizes => set c | c in chests && !c.claimed :: c.index
        case _ => {};
      here + ClaimTargets(calls[1..], chests)
  }

  /** The claim call set claims exactly the unclaimed chests, whichever shape it takes. */
  lemma ClaimCallsTargetUnclaimed(chests: seq<Chest>)
    ensures ClaimTargets(ClaimCalls(chests), chests) == set c | c in chests && !c.claimed :: c.index
  {
    var u := Unclaimed(chests);
    var want := set c | c in chests && !c.claimed :: c.index;
    if |u| == 1 {
      var calls := ClaimCalls(chests);
      assert calls[1..] == [];
      forall i | i in want ensures i == u[0].index {
        var c :| c in chests && !c.claimed && c.index == i;
        assert c in u;
      }
      assert u[0] in chests;
    } else if |u| > 1 {
      assert ClaimCalls(chests)[1..] == [];
    }
  }
}
