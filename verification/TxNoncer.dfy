/** Virtual nonces on top of a chain state (core/tx_noncer.go). */
module Noncer {
  import opened TxTypes

  /** The chain's nonces, overridden for some accounts. */
  datatype Nonces = Nonces(fallback: Address -> nat, known: map<Address, nat>) {
    function At(addr: Address): nat {
      if addr in known then known[addr] else fallback(addr)
    }
  }

  class TxNoncer {
    const fallback: Address -> nat
    var nonces: map<Address, nat>

    ghost function View(): Nonces
      reads this
    {
      Nonces(fallback, nonces)
    }

    /** The nonce an account is expected to use next. */
    ghost function Nonce(addr: Address): nat
      reads this
    {
      View().At(addr)
    }

    constructor (fallback: Address -> nat)
      ensures View() == Nonces(fallback, map[])
      ensures forall a :: Nonce(a) == fallback(a)
    {
      this.fallback := fallback;
      nonces := map[];
    }

    /** Reading caches the chain's nonce but changes no account's virtual nonce. */
    method Get(addr: Address) returns (nonce: nat)
      modifies this
      ensures nonce == old(Nonce(addr))
      ensures forall a :: Nonce(a) == old(Nonce(a))
    {
      if addr !in nonces {
        nonces := nonces[addr := fallback(addr)];
      }
      nonce := nonces[addr];
    }

    method Set(addr: Address, nonce: nat)
      modifies this
      ensures forall a :: Nonce(a) == if a == addr then nonce else old(Nonce(a))
    {
      nonces := nonces[addr := nonce];
    }

    method SetIfLower(addr: Address, nonce: nat)
      modifies this
      ensures forall a :: Nonce(a) == if a == addr && nonce < old(Nonce(addr)) then nonce else old(Nonce(a))
    {
      if addr !in nonces {
        nonces := nonces[addr := fallback(addr)];
      }
      if nonces[addr] <= nonce {
        return;
      }
      nonces := nonces[addr := nonce];
    }
  }
}
