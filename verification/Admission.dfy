/** The pool and the block processor agree: a transaction with the account's next nonce that the pool
    finds payable and well priced is one that a block with room for it can execute
    (core/tx_pool.go, core/state_transition.go). */
module Admission {
  import opened Collections
  import opened TxTypes
  import Gas
  import Intrinsic
  import Submission

  /** The message of a transaction; one that creates a contract has no recipient. */
  function MsgOf(tx: Tx, to: Address): Gas.Msg {
    Gas.Msg(tx.sender, if tx.create then None else Some(to), tx.nonce, true, tx.gas, tx.price, tx.value, tx.data)
  }

  /** The state of the processor shows what the pool's state shows for an account. */
  ghost predicate Agrees(state: Submission.ChainState, w: Gas.World, a: Address) {
    Gas.At(w.nonces, a) == state.nonce(a) && Gas.At(w.balances, a) == state.balance(a)
  }

  /** At the account's next nonce and with room in the block, a message is executed if and only if its
      cost is covered and its gas covers the intrinsic gas. */
  lemma ExecutesIff(state: Submission.ChainState, tx: Tx, to: Address, evm: Gas.Evm, coinbase: Address, w: Gas.World, pool: nat)
    requires Gas.Frugal(evm) && Agrees(state, w, tx.sender) && tx.nonce == state.nonce(tx.sender)
    requires 0 <= tx.value && tx.gas <= pool <= Intrinsic.MAX_UINT64
    ensures Gas.Applied(evm, Gas.Terms(coinbase, state.eip2, state.eip2028), w, pool, MsgOf(tx, to)).result.Ok? <==>
              && tx.Cost() <= state.balance(tx.sender)
              && Intrinsic.ExactGas(tx.data, tx.create, state.eip2, state.eip2028) <= tx.gas
  {
    hide Intrinsic.ExactGas, Gas.Settled, Gas.Used, Gas.Frugal;
    var msg := MsgOf(tx, to);
    assert Gas.Wei(msg.gas, msg.price) == tx.price * tx.gas == tx.Cost() - tx.value;
  }

  /** What the pool admits at the account's next nonce, the processor executes. */
  lemma AdmittedExecutes(terms: Submission.Terms, locals: set<Address>, tx: Tx, local: bool, to: Address, evm: Gas.Evm,
                         coinbase: Address, w: Gas.World, pool: nat)
    requires Submission.Fits(terms, locals, tx, local) && Agrees(terms.state, w, tx.sender) && tx.nonce == terms.state.nonce(tx.sender)
    requires Gas.Frugal(evm) && tx.gas <= pool <= Intrinsic.MAX_UINT64
    ensures Gas.Applied(evm, Gas.Terms(coinbase, terms.state.eip2, terms.state.eip2028), w, pool, MsgOf(tx, to)).result.Ok?
  {
    hide Gas.Applied, Intrinsic.ExactGas, Gas.Frugal;
    ExecutesIff(terms.state, tx, to, evm, coinbase, w, pool);
  }
}
