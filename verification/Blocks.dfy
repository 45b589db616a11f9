/** Blocks as the data source delivers them (crates/data-types). */
module Blocks {
  import opened Types

  datatype Transaction = Transaction(from: Option<Address>, gas: Option<U64>, nonce: Option<U64>)

  datatype StateDiff = StateDiff(
    address: Option<Address>,
    key: Option<string>,
    kind: Option<string>,
    next: Option<string>)

  datatype Block = Block(number: U64, transactions: seq<Transaction>, stateDiffs: seq<StateDiff>)
}
