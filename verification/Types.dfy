/** Transactions as the pool sees them, and what every module counts with. */
module Types {

  datatype Option<+T> = None | Some(value: T)

  /** The number of values of a 64-bit word. */
  const U64 := 0x1_0000_0000_0000_0000

  function Min(a: int, b: int): int {
    if a < b then a else b
  }

  function Max(a: int, b: int): int {
    if a < b then b else a
  }

  function Distance(a: int, b: int): nat {
    if a < b then b - a else a - b
  }

  type Address = nat

  type Positive = n: int | 0 < n witness 1

  /** A signed transaction with its recovered sender. `id` stands for the payload and
      signature that the pool never looks at. Hashing is injective, so a transaction stands
      for its own hash: two transactions have the same hash exactly when they are equal. */
  datatype Tx = Tx(id: nat, sender: Address, nonce: nat, price: int, gas: nat, value: int, size: Positive) {
    /** The most the sender can be charged: `value + price * gas`. */
    function Cost(): int {
      price * gas + value
    }
  }

  /** Bytes of one pool slot and of the largest transaction the pool takes. */
  const TX_SLOT_SIZE := 32 * 1024
  const TX_MAX_SIZE := 4 * TX_SLOT_SIZE

  /** The slots a transaction takes: its size in slots, rounded up, so never zero. */
  function NumSlots(tx: Tx): (n: nat)
    ensures (n - 1) * TX_SLOT_SIZE < tx.size <= n * TX_SLOT_SIZE
    ensures n >= 1
  {
    (tx.size + TX_SLOT_SIZE - 1) / TX_SLOT_SIZE
  }

  /** A transaction of the largest size, 128 kilobytes, takes four slots, and none takes more. */
  lemma AtMostFour(tx: Tx)
    ensures tx.size <= TX_MAX_SIZE ==> NumSlots(tx) <= 4
    ensures tx.size == 0x2_0000 ==> tx.size == TX_MAX_SIZE && NumSlots(tx) == 4
  {}
}
