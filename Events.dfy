/** The chest contract's log records and the domain events decoded from them. */
module Events {
  import opened Wrappers

  /** A raw log record of a transaction receipt, as the wallet layer delivers it. */
  datatype RawLog = RawLog(topics: seq<string>, data: string, address: string, transactionHash: string)

  /** The two events of the chest contract's interface. Block numbers, indices and prizes
      (in wei) are unbounded naturals. */
  datatype Event =
    | ChestPurchased(player: string, blockNumber: nat, special: bool, chestIndex: nat)
    | PrizeAwarded(player: string, prize: nat, special: bool)

  /** Parsing one log against the contract interface. `None` stands for every log the parser
      rejects (an unknown topic, malformed data); the callers catch that and go on. */
  type Decoder = RawLog -> Option<Event>
}
