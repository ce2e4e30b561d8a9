/** The countdown shown under an unclaimed chest: the blocks left in the chest's claim window,
    the time they stand for at two seconds a block, and the colour that grows more urgent as the
    window closes. */
module BlockCountdown {
  import opened Wrappers

  const SecondsPerBlock: nat := 2
  /** The claim window the chest rows pass in, in blocks. */
  const ClaimWindow: nat := 256
  /** Colour thresholds, in blocks left. */
  const PulseBelow: int := 50
  const YellowBelow: int := 100

  /** Blocks left before the window closes; zero or less once it has closed. */
  function BlocksLeft(purchaseBlock: nat, maxBlocks: nat, height: nat): (r: int)
    ensures r <= 0 <==> purchaseBlock + maxBlocks <= height
    ensures height < purchaseBlock + maxBlocks ==> r == (purchaseBlock + maxBlocks - height) as nat
  {
    purchaseBlock + maxBlocks - height
  }

  /** The countdown text: nothing before the first height arrives, "Expired", or `<m>m <s>s`. */
  datatype TimeLeft = NotFetched | Expired | Remaining(minutes: nat, seconds: nat)

  /** The text for a number of blocks left. */
  function TimeLeftFor(blocksLeft: int): (r: TimeLeft)
    ensures !r.NotFetched?
    ensures r.Expired? <==> blocksLeft <= 0
    ensures r.Remaining? ==> r.seconds < 60 && 60 * r.minutes + r.seconds == SecondsPerBlock * blocksLeft
  {
    if blocksLeft <= 0 then Expired
    else
      var secondsLeft := blocksLeft * SecondsPerBlock;
      Remaining(secondsLeft / 60, secondsLeft % 60)
  }

  /** The minutes and seconds shown determine the blocks left: two different counts never show
      the same text. */
  lemma TimeLeftInjective(a: int, b: int)
    requires 0 < a && 0 < b
    requires TimeLeftFor(a) == TimeLeftFor(b)
    ensures a == b
  {
    var r := TimeLeftFor(a);
    assert SecondsPerBlock * a == 60 * r.minutes + r.seconds == SecondsPerBlock * b;
  }

  /** More blocks left never shows less time. */
  lemma TimeLeftMonotone(a: int, b: int)
    requires 0 < a <= b
    ensures TimeLeftFor(a).minutes <= TimeLeftFor(b).minutes
    ensures TimeLeftFor(a).minutes == TimeLeftFor(b).minutes ==> TimeLeftFor(a).seconds <= TimeLeftFor(b).seconds
  {
    var ra, rb := TimeLeftFor(a), TimeLeftFor(b);
    assert 60 * ra.minutes + ra.seconds <= 60 * rb.minutes + rb.seconds;
  }

  /** The four colours, from closed to comfortable. */
  datatype ProgressColor = Red | RedPulse | Yellow | Green

  /** How urgent a colour is: red 3, pulsing red 2, yellow 1, green 0. */
  function Urgency(c: ProgressColor): nat {
    match c
    case Red => 3
    case RedPulse => 2
    case Yellow => 1
    case Green => 0
  }

  /** The colour for a number of blocks left: red once the window closed, pulsing red up to 50
      blocks, yellow up to 100, green beyond. */
  function ColorFor(blocksLeft: int): (r: ProgressColor)
    ensures r == Red <==> blocksLeft <= 0
    ensures r == Green <==> YellowBelow < blocksLeft
    ensures r == RedPulse ==> blocksLeft <= PulseBelow
    ensures r == Yellow ==> PulseBelow < blocksLeft
  {
    if blocksLeft <= 0 then Red
    else if blocksLeft <= PulseBelow then RedPulse
    else if blocksLeft <= YellowBelow then Yellow
    else Green
  }

  /** Fewer blocks left never gives a calmer colour. */
  lemma ColorMonotone(a: int, b: int)
    requires a <= b
    ensures Urgency(ColorFor(b)) <= Urgency(ColorFor(a))
  {
  }

  /** For one count of blocks, the colour is red exactly when the text says "Expired". */
  lemma ColorAgreesWithText(blocksLeft: int)
    ensures ColorFor(blocksLeft) == Red <==> TimeLeftFor(blocksLeft).Expired?
  {
  }

  /** One countdown: the chest's purchase block and window, and the last height and text it
      received. */
  class Countdown {
    const purchaseBlock: nat
    const maxBlocks: nat
    var currentBlock: nat
    var timeLeft: TimeLeft

    /** The text always belongs to the height held, except before the first height arrives. */
    ghost predicate Consistent()
      reads this
    {
      || (timeLeft.NotFetched? && currentBlock == 0)
      || timeLeft == TimeLeftFor(BlocksLeft(purchaseBlock, maxBlocks, currentBlock))
    }

    constructor (purchaseBlock: nat, maxBlocks: nat)
      ensures this.purchaseBlock == purchaseBlock && this.maxBlocks == maxBlocks
      ensures currentBlock == 0 && timeLeft == NotFetched
      ensures Consistent()
    {
      this.purchaseBlock := purchaseBlock;
      this.maxBlocks := maxBlocks;
      currentBlock := 0;
      timeLeft := NotFetched;
    }

    /** One poll: `height` is the block height the client returned, or `None` when the call
        failed, which leaves the state as it was. */
    method Poll(height: Option<nat>)
      requires Consistent()
      modifies this
      ensures Consistent()
      ensures height.None? ==> currentBlock == old(currentBlock) && timeLeft == old(timeLeft)
      ensures height.Some? ==>
        && currentBlock == height.value
        && timeLeft == TimeLeftFor(BlocksLeft(purchaseBlock, maxBlocks, height.value))
    {
      if height.None? {
        return;
      }
      currentBlock := height.value;
      var blocksLeft := purchaseBlock + maxBlocks - height.value;
      if blocksLeft <= 0 {
        timeLeft := Expired;
        return;
      }
      var secondsLeft := blocksLeft * SecondsPerBlock;
      timeLeft := Remaining(secondsLeft / 60, secondsLeft % 60);
    }

    /** The colour for the height held; before the first height arrives that height is zero. */
    function Color(): (r: ProgressColor)
      reads this
      ensures r == ColorFor(BlocksLeft(purchaseBlock, maxBlocks, currentBlock))
      ensures r == Red <==> purchaseBlock + maxBlocks <= currentBlock
      ensures r == RedPulse <==>
        currentBlock < purchaseBlock + maxBlocks <= currentBlock + PulseBelow
      ensures r == Yellow <==>
        currentBlock + PulseBelow < purchaseBlock + maxBlocks <= currentBlock + YellowBelow
      ensures r == Green <==> currentBlock + YellowBelow < purchaseBlock + maxBlocks
    {
      ColorFor(BlocksLeft(purchaseBlock, maxBlocks, currentBlock))
    }

    /** Once a height has arrived, the colour is red exactly when the text says "Expired". */
    lemma ColorMatchesText()
      requires Consistent() && !timeLeft.NotFetched?
      ensures Color() == Red <==> timeLeft.Expired?
    {
      ColorAgreesWithText(BlocksLeft(purchaseBlock, maxBlocks, currentBlock));
    }
  }
}
