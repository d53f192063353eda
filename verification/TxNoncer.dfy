/** Virtual nonces: what the next nonce of an account would be with all its pending
    transactions applied. Unknown accounts fall back to the chain state. */
module TxNoncer {
  import opened Types

  /** The value of a noncer. */
  datatype Noncer = Noncer(fallback: Address -> nat, nonces: map<Address, nat>) {
    function Get(a: Address): nat {
      if a in nonces then nonces[a] else fallback(a)
    }

    function Set(a: Address, n: nat): Noncer {
      Noncer(fallback, nonces[a := n])
    }

    function SetIfLower(a: Address, n: nat): Noncer {
      if Get(a) <= n then this else Set(a, n)
    }
  }

  class TxNoncer {
    const fallback: Address -> nat
    var nonces: map<Address, nat>

    function Value(): Noncer
      reads this
    {
      Noncer(fallback, nonces)
    }

    constructor (fallback: Address -> nat)
      ensures this.fallback == fallback && forall a :: Value().Get(a) == fallback(a)
    {
      this.fallback, nonces := fallback, map[];
    }

    /** Reading an unknown account caches its nonce, which no later read can tell. */
    method Get(a: Address) returns (n: nat)
      modifies this
      ensures n == old(Value()).Get(a)
      ensures forall b :: Value().Get(b) == old(Value()).Get(b)
    {
      if a !in nonces {
        nonces := nonces[a := fallback(a)];
      }
      n := nonces[a];
    }

    method Set(a: Address, n: nat)
      modifies this
      ensures forall b :: Value().Get(b) == if b == a then n else old(Value()).Get(b)
    {
      nonces := nonces[a := n];
    }

    method SetIfLower(a: Address, n: nat)
      modifies this
      ensures forall b :: Value().Get(b) == if b == a && n < old(Value()).Get(a) then n else old(Value()).Get(b)
    {
      if a !in nonces {
        nonces := nonces[a := fallback(a)];
      }
      if nonces[a] <= n {
        return;
      }
      nonces := nonces[a := n];
    }
  }
}
