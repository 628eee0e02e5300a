/**
 What the audit reads from a node.  Storage is read at a height; the node answers every
 question, so each answer is a total function and a property of the chain is a predicate on
 the answers.  Amounts are the integers of the chain; a Python Decimal becomes a real.
 */
module ChainView {

  type Address = string

  /** A commission in parts per million. */
  type Permill = n: nat | n <= 1_000_000

  const COLLATOR_POT: Address := "5EYCAe5cKPAoFh2HnQQvpKqRYZGqBpaA87u4Zzw89qPE58is"

  datatype Delegator = Delegator(owner: Address, amount: nat)

  datatype Stake = Stake(stake: nat, commission: Permill, delegators: seq<Delegator>)

  type Snapshot = map<Address, Stake>

  type BlockCounts = map<Address, nat>

  datatype Event =
    | Deposit(who: Address, amount: nat)
    | Rewarded(who: Address, amount: nat)
    | OtherEvent

  datatype Round = Round(current: nat, first: nat)

  datatype Node = Node(
    head: nat,
    round: int -> Round,
    author: int -> Address,
    events: int -> seq<Event>,
    collatorBlocks: (int, nat) -> BlockCounts,
    atStake: (int, nat) -> Snapshot,
    potBalance: int -> int)

  datatype Session = Session(first: int, length: int, index: nat)

  /** The amounts of a dictionary of counts, as numbers that can be totalled. */
  ghost function AsReals<K(!new)>(m: map<K, nat>): map<K, real>
  {
    map k | k in m :: m[k] as real
  }
}
