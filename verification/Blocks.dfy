/** Transactions, headers and blocks, and the hash that identifies a header. */
module Blocks {
  import opened Types

  /** `rest` stands for code hash, storage root and VM tag; it is empty for an account that was never a contract. */
  datatype Account = Account(nonce: nat, balance: u128, rest: seq<byte>)

  type Accounts = map<Address, Account>

  /** A digest. Collision freedom of keccak is built in: a digest determines the header or trie it was taken of. */
  datatype H256 = Raw(bytes: seq<byte>) | OfHeader(header: Header) | OfState(state: Accounts)

  /** What a transaction to the staking address asks of governance. */
  datatype GovernanceCall =
    | NoCall
    | ProposeUpgrade(name: string, version: nat, activation: nat)
    | CastVote(id: nat, approve: bool)

  datatype Tx = Tx(
    hash: H256,
    from: Address,
    nonce: nat,
    to: Option<Address>,
    value: nat,
    call: GovernanceCall,
    maxPriorityFee: nat,
    maxFee: nat,
    gasLimit: nat)

  /** Uncle hash, difficulty, mix hash and nonce are the same in every header and are not modelled. */
  datatype Header = Header(
    parentHash: H256,
    coinbase: Address,
    stateRoot: H256,
    transactionsRoot: H256,
    receiptsRoot: H256,
    logsBloom: seq<byte>,
    number: nat,
    gasLimit: nat,
    gasUsed: nat,
    timestamp: nat,
    baseFee: nat,
    extraData: seq<byte>,
    epoch: nat,
    epochSeed: Option<H256>,
    committeeSignature: seq<byte>)

  const ZERO_HASH: H256 := Raw(seq(32, _ => 0))

  datatype Block = Block(header: Header, txs: seq<Tx>)

  /** The committee signature is attached later and is not hashed. */
  function Hash(h: Header): H256 {
    OfHeader(h.(committeeSignature := []))
  }
}
