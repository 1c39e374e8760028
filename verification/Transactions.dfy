/** Transactions as the pool sees them, and the identity under which it files them. */
module Transactions {

  type Address = nat

  /** The two balances of an account a transaction can draw on. */
  datatype Wallet = Main | Stake

  /** `payload` stands for everything that tells two transactions apart besides the fields the pool reads. */
  datatype Tx = Tx(from: Address, nonce: nat, price: nat, gas: nat, value: nat, base: Wallet, payload: nat)

  /** An ideal (collision free) transaction hash. */
  datatype TxHash = TxHash(of: Tx)

  function MainFee(tx: Tx): nat {
    tx.price * tx.gas
  }

  function Cost(tx: Tx): nat {
    MainFee(tx) + tx.value
  }

  /** What the main balance is charged: a stake-based transaction takes its value from the stake. */
  function Charge(tx: Tx): nat {
    if tx.base == Main then Cost(tx) else MainFee(tx)
  }

  /** Whether the sender's main balance and the block gas limit allow the transaction. */
  predicate Affordable(tx: Tx, balance: nat, gasLimit: nat) {
    Charge(tx) <= balance && tx.gas <= gasLimit
  }

  /** The eviction order of the price heap: cheaper first, and among equal prices the higher nonce first. */
  predicate Cheaper(t: Tx, u: Tx) {
    t.price < u.price || (t.price == u.price && t.nonce > u.nonce)
  }
}
