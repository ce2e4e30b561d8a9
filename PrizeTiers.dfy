/** The five-tier colour classification of a prize amount, shared by the history list
    and by the claimed-chest rows. Amounts are in wei. */
module PrizeTiers {

  const TopMin: nat := 100_000_000_000_000_000    // 0.1 ether
  const SecondMin: nat := 40_000_000_000_000_000  // 0.04 ether
  const ThirdMin: nat := 15_000_000_000_000_000   // 0.015 ether
  const FourthMin: nat := 8_000_000_000_000_000   // 0.008 ether

  /** Named after the colour class each tier gets, from the best prize to the lowest. */
  datatype PrizeTier = Purple | Yellow | Green | Blue | Amber

  /** The smallest amount that reaches a tier. */
  function MinAmount(t: PrizeTier): nat {
    match t
    case Purple => TopMin
    case Yellow => SecondMin
    case Green => ThirdMin
    case Blue => FourthMin
    case Amber => 0
  }

  /** How good a tier is: the lowest tier has rank 0. */
  function Rank(t: PrizeTier): nat {
    match t
    case Purple => 4
    case Yellow => 3
    case Green => 2
    case Blue => 1
    case Amber => 0
  }

  /** The colour of a prize: the best tier whose threshold the amount reaches. */
  function PrizeColor(amount: nat): (r: PrizeTier)
    ensures MinAmount(r) <= amount
    ensures forall t: PrizeTier :: Rank(r) < Rank(t) ==> amount < MinAmount(t)
  {
    if amount >= TopMin then Purple
    else if amount >= SecondMin then Yellow
    else if amount >= ThirdMin then Green
    else if amount >= FourthMin then Blue
    else Amber
  }

  /** Exactly one tier applies: any tier reached by the amount and no better tier reached is the colour. */
  lemma PrizeColorUnique(amount: nat, t: PrizeTier)
    requires MinAmount(t) <= amount
    requires forall u: PrizeTier :: Rank(t) < Rank(u) ==> amount < MinAmount(u)
    ensures PrizeColor(amount) == t
  {
  }

  /** A larger prize never gets a worse colour. */
  lemma PrizeColorMonotone(a: nat, b: nat)
    requires a <= b
    ensures Rank(PrizeColor(a)) <= Rank(PrizeColor(b))
  {
  }
}
