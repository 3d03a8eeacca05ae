/** Buying, spending and refunding gas, transaction by transaction through a block
    (core/gaspool.go, core/state_transition.go, core/state_processor.go). */
module Gas {
  import opened Collections
  import opened TxTypes
  import opened Intrinsic

  datatype Msg = Msg(from: Address, to: Option<Address>, nonce: nat, checkNonce: bool, gas: nat, price: nat, value: int, data: seq<Byte>)

  datatype World = World(balances: map<Address, nat>, nonces: map<Address, nat>)

  /** What running a message leaves behind: the state, the refund counter and the unspent gas. */
  datatype VmOut = VmOut(world: World, refund: nat, left: nat, failed: bool)

  /** The virtual machine, as a function of the state, the message and the gas it may spend. */
  type Evm = (World, Msg, nat) -> VmOut

  /** The virtual machine never returns more gas than it was given. */
  ghost predicate Frugal(evm: Evm) {
    forall w, m, g :: evm(w, m, g).left <= g
  }

  datatype ConsensusError =
    | NonceTooHigh | NonceTooLow | InsufficientFunds | GasLimitReached
    | GasUintOverflow | IntrinsicGasTooLow | InsufficientFundsForTransfer

  datatype Result = Ok(used: nat, failed: bool) | Err(error: ConsensusError)

  function At(m: map<Address, nat>, a: Address): nat {
    if a in m then m[a] else 0
  }

  /** What an amount of gas costs. */
  function Wei(gas: nat, price: nat): nat {
    gas * price
  }

  function Credit(m: map<Address, nat>, a: Address, amount: nat): map<Address, nat> {
    m[a := At(m, a) + amount]
  }

  function Debit(m: map<Address, nat>, a: Address, amount: nat): map<Address, nat>
    requires amount <= At(m, a)
  {
    m[a := At(m, a) - amount]
  }

  lemma CreditSum(m: map<Address, nat>, a: Address, amount: nat)
    ensures Sum(Credit(m, a, amount)) == Sum(m) + amount
  {
    SumUpdate(m, a, At(m, a) + amount);
  }

  lemma DebitSum(m: map<Address, nat>, a: Address, amount: nat)
    requires amount <= At(m, a)
    ensures Sum(Debit(m, a, amount)) == Sum(m) - amount
  {
    SumUpdate(m, a, At(m, a) - amount);
  }

  /** The state after the sender has paid for all its gas and used its nonce. */
  function Charged(w: World, msg: Msg): World
    requires Wei(msg.gas, msg.price) <= At(w.balances, msg.from)
  {
    World(Debit(w.balances, msg.from, Wei(msg.gas, msg.price)),
          if msg.to == None then w.nonces else w.nonces[msg.from := At(w.nonces, msg.from) + 1])
  }

  /** The refund is capped at half of what was consumed. */
  function Used(consumed: nat, refund: nat): (used: nat)
    ensures 2 * used >= consumed && used <= consumed
  {
    consumed - if refund < consumed / 2 then refund else consumed / 2
  }

  /** Gas is paid for unit by unit. */
  lemma Split(gas: nat, used: nat, price: nat)
    requires used <= gas
    ensures Wei(gas - used, price) + Wei(used, price) == Wei(gas, price) && Wei(1, price) == price
  {
  }

  lemma Payments(paid: map<Address, nat>, from: Address, cost: nat, out: map<Address, nat>, back: nat, coinbase: Address, fee: nat)
    requires cost <= At(paid, from) && back + fee == cost
    ensures Sum(Credit(Credit(out, from, back), coinbase, fee)) == Sum(paid) + Sum(out) - Sum(Debit(paid, from, cost))
  {
    hide Credit, Debit, At;
    DebitSum(paid, from, cost);
    CreditSum(out, from, back);
    CreditSum(Credit(out, from, back), coinbase, fee);
  }

  /** The state once unspent gas is paid back to the sender and spent gas to the miner. */
  function Settled(out: VmOut, msg: Msg, coinbase: Address): World
    requires out.left <= msg.gas
  {
    var used := Used(msg.gas - out.left, out.refund);
    World(Credit(Credit(out.world.balances, msg.from, Wei(msg.gas - used, msg.price)), coinbase, Wei(used, msg.price)), out.world.nonces)
  }

  /** All payments are made at the price paid for the gas, so the total changes by exactly what the
      virtual machine changed. */
  lemma Settlement(w: World, msg: Msg, out: VmOut, coinbase: Address)
    requires Wei(msg.gas, msg.price) <= At(w.balances, msg.from) && out.left <= msg.gas
    ensures Sum(Settled(out, msg, coinbase).balances) == Sum(w.balances) + Sum(out.world.balances) - Sum(Charged(w, msg).balances)
  {
    hide Credit, Debit, At, Wei;
    var used := Used(msg.gas - out.left, out.refund);
    Split(msg.gas, used, msg.price);
    Payments(w.balances, msg.from, Wei(msg.gas, msg.price), out.world.balances, Wei(msg.gas - used, msg.price), coinbase, Wei(used, msg.price));
  }

  /** Why a message is not even bought gas for, with the given gas left in the pool. */
  function Refusal(w: World, pool: nat, msg: Msg): Option<ConsensusError> {
    var nonce := At(w.nonces, msg.from);
    if msg.checkNonce && nonce < msg.nonce then Some(NonceTooHigh)
    else if msg.checkNonce && nonce > msg.nonce then Some(NonceTooLow)
    else if At(w.balances, msg.from) < Wei(msg.gas, msg.price) then Some(InsufficientFunds)
    else if pool < msg.gas then Some(GasLimitReached)
    else None
  }

  /** Why a message that has bought its gas is still rejected; its gas is then gone from the pool. */
  function Rejection(w: World, msg: Msg, exact: nat): Option<ConsensusError>
    requires Wei(msg.gas, msg.price) <= At(w.balances, msg.from)
  {
    if exact > MAX_UINT64 then Some(GasUintOverflow)
    else if exact > msg.gas then Some(IntrinsicGasTooLow)
    else if msg.value > 0 && At(Charged(w, msg).balances, msg.from) < msg.value then Some(InsufficientFundsForTransfer)
    else None
  }

  /** The rules and the miner of a block. */
  datatype Terms = Terms(coinbase: Address, eip2: bool, eip2028: bool)

  /** The outcome of a message, and the state and the pool it leaves. */
  datatype Step = Step(result: Result, world: World, pool: nat)

  ghost function Applied(evm: Evm, terms: Terms, w: World, pool: nat, msg: Msg): Step
    requires Frugal(evm)
  {
    var refused := Refusal(w, pool, msg);
    if refused.Some? then Step(Err(refused.value), w, pool) else
    var exact := ExactGas(msg.data, msg.to == None, terms.eip2, terms.eip2028);
    var rejected := Rejection(w, msg, exact);
    if rejected.Some? then Step(Err(rejected.value), World(Charged(w, msg).balances, w.nonces), pool - msg.gas) else
    var out := evm(Charged(w, msg), msg, msg.gas - exact);
    var used := Used(msg.gas - out.left, out.refund);
    Step(Ok(used, out.failed), Settled(out, msg, terms.coinbase), pool - used)
  }

  /** What the refund takes off: all of it, or half of what was consumed, rounded down. */
  lemma UsedExact(consumed: nat, refund: nat)
    ensures if 2 * refund <= consumed then Used(consumed, refund) == consumed - refund
            else consumed <= 2 * Used(consumed, refund) <= consumed + 1
  {
  }

  /** Who is paid what once the machine is done. */
  lemma Payout(out: VmOut, msg: Msg, coinbase: Address, a: Address)
    requires out.left <= msg.gas
    ensures var used := Used(msg.gas - out.left, out.refund);
            At(Settled(out, msg, coinbase).balances, a) ==
            At(out.world.balances, a) + (if a == msg.from then Wei(msg.gas - used, msg.price) else 0)
                                      + (if a == coinbase then Wei(used, msg.price) else 0)
  {
    hide Wei, Used;
  }

  /** A machine that moves no ether. */
  ghost predicate Still(evm: Evm) {
    forall w, m, g :: evm(w, m, g).world.balances == w.balances
  }

  /** With such a machine a message costs its sender exactly the gas used at its price, the miner gets
      exactly that, and nobody else gains or loses. */
  lemma Transfer(evm: Evm, terms: Terms, w: World, pool: nat, msg: Msg, a: Address)
    requires Frugal(evm) && Still(evm) && Applied(evm, terms, w, pool, msg).result.Ok?
    ensures var step := Applied(evm, terms, w, pool, msg);
            var fee := Wei(step.result.used, msg.price);
            At(step.world.balances, a) + (if a == msg.from then fee else 0) ==
            At(w.balances, a) + if a == terms.coinbase then fee else 0
  {
    hide Wei, Used, Settled, ExactGas;
    var exact := ExactGas(msg.data, msg.to == None, terms.eip2, terms.eip2028);
    var out := evm(Charged(w, msg), msg, msg.gas - exact);
    var used := Used(msg.gas - out.left, out.refund);
    Split(msg.gas, used, msg.price);
    Payout(out, msg, terms.coinbase, a);
  }

  class GasPool {
    var gas: nat

    constructor ()
      ensures gas == 0
    {
      gas := 0;
    }

    /** Adds gas; false stands for the panic on leaving 64 bits. */
    method AddGas(amount: nat) returns (ok: bool)
      requires amount <= MAX_UINT64
      modifies this`gas
      ensures ok <==> old(gas) + amount <= MAX_UINT64
      ensures gas == if ok then old(gas) + amount else old(gas)
    {
      if gas > MAX_UINT64 - amount {
        return false;
      }
      gas := gas + amount;
      ok := true;
    }

    method SubGas(amount: nat) returns (ok: bool)
      modifies this`gas
      ensures ok <==> amount <= old(gas)
      ensures gas == if ok then old(gas) - amount else old(gas)
    {
      if gas < amount {
        return false;
      }
      gas := gas - amount;
      ok := true;
    }
  }

  class StateDb {
    var world: World
    var refund: nat

    constructor (world: World)
      ensures this.world == world && refund == 0
    {
      this.world, refund := world, 0;
    }
  }

  class StateTransition {
    const gp: GasPool
    const state: StateDb
    const msg: Msg
    const evm: Evm
    const coinbase: Address
    const eip2: bool
    const eip2028: bool
    var gas: nat
    var initialGas: nat

    constructor (gp: GasPool, state: StateDb, msg: Msg, evm: Evm, coinbase: Address, eip2: bool, eip2028: bool)
      ensures this.gp == gp && this.state == state && this.msg == msg && this.evm == evm && this.coinbase == coinbase
      ensures this.eip2 == eip2 && this.eip2028 == eip2028 && gas == 0 && initialGas == 0
    {
      this.gp, this.state, this.msg, this.evm, this.coinbase := gp, state, msg, evm, coinbase;
      this.eip2, this.eip2028, gas, initialGas := eip2, eip2028, 0, 0;
    }

    function Balance(): nat
      reads this, state
    {
      At(state.world.balances, msg.from)
    }

    method BuyGas() returns (r: Option<ConsensusError>)
      requires gas == 0
      modifies this`gas, this`initialGas, gp`gas, state`world
      ensures r == if old(Balance()) < Wei(msg.gas, msg.price) then Some(InsufficientFunds)
                   else if old(gp.gas) < msg.gas then Some(GasLimitReached) else None
      ensures r.Some? ==> gp.gas == old(gp.gas) && state.world == old(state.world)
      ensures r == None ==>
                && gas == initialGas == msg.gas && gp.gas == old(gp.gas) - msg.gas
                && state.world == old(state.world).(balances := Debit(old(state.world.balances), msg.from, Wei(msg.gas, msg.price)))
    {
      var mgval := Wei(msg.gas, msg.price);
      if Balance() < mgval {
        return Some(InsufficientFunds);
      }
      var ok := gp.SubGas(msg.gas);
      if !ok {
        return Some(GasLimitReached);
      }
      gas := gas + msg.gas;
      initialGas := msg.gas;
      state.world := state.world.(balances := Debit(state.world.balances, msg.from, mgval));
      r := None;
    }

    method PreCheck() returns (r: Option<ConsensusError>)
      requires gas == 0
      modifies this`gas, this`initialGas, gp`gas, state`world
      ensures r == Refusal(old(state.world), old(gp.gas), msg)
      ensures r.Some? ==> gp.gas == old(gp.gas) && state.world == old(state.world)
      ensures r == None ==>
                && gas == initialGas == msg.gas && gp.gas == old(gp.gas) - msg.gas
                && state.world == old(state.world).(balances := Debit(old(state.world.balances), msg.from, Wei(msg.gas, msg.price)))
    {
      if msg.checkNonce {
        var nonce := At(state.world.nonces, msg.from);
        if nonce < msg.nonce {
          return Some(NonceTooHigh);
        } else if nonce > msg.nonce {
          return Some(NonceTooLow);
        }
      }
      r := BuyGas();
    }

    /** Pays back the unspent gas, raised by the capped refund, and returns it to the pool; the pool
        cannot overflow because it held this gas before. */
    method RefundGas()
      requires gas <= initialGas == msg.gas && gp.gas + msg.gas <= MAX_UINT64
      modifies this`gas, gp`gas, state`world
      ensures gas == initialGas - Used(initialGas - old(gas), state.refund)
      ensures gp.gas == old(gp.gas) + gas
      ensures state.world == old(state.world).(balances := Credit(old(state.world.balances), msg.from, Wei(gas, msg.price)))
    {
      var refund := (initialGas - gas) / 2;
      if refund > state.refund {
        refund := state.refund;
      }
      gas := gas + refund;
      state.world := state.world.(balances := Credit(state.world.balances, msg.from, Wei(gas, msg.price)));
      var ok := gp.AddGas(gas);
      assert ok;
    }

    /** The price of the message before any code runs. */
    function Exact(): nat {
      ExactGas(msg.data, msg.to == None, eip2, eip2028)
    }

    /** Runs a message that has paid for its gas, and settles the bill. */
    method Execute(ghost world: World) returns (r: Result)
      requires Frugal(evm) && Wei(msg.gas, msg.price) <= At(world.balances, msg.from) && gp.gas + msg.gas <= MAX_UINT64
      requires initialGas == msg.gas && Exact() <= msg.gas && gas == msg.gas - Exact()
      requires state.world == World(Charged(world, msg).balances, world.nonces)
      modifies this`gas, gp`gas, state
      ensures var start := Charged(world, msg);
              var out := evm(start, msg, msg.gas - Exact());
              && r == Ok(Used(msg.gas - out.left, out.refund), out.failed) && Exact() <= 2 * r.used <= 2 * msg.gas
              && gp.gas == old(gp.gas) + msg.gas - r.used && state.world == Settled(out, msg, coinbase)
              && Sum(state.world.balances) == Sum(world.balances) + Sum(out.world.balances) - Sum(start.balances)
    {
      hide Credit, Debit, At, ExactGas, Used, Wei;
      if msg.to.Some? {
        state.world := state.world.(nonces := state.world.nonces[msg.from := At(state.world.nonces, msg.from) + 1]);
      }
      var out := evm(state.world, msg, gas);
      state.world, state.refund, gas := out.world, out.refund, out.left;
      RefundGas();
      var used := initialGas - gas;
      Settlement(world, msg, out, coinbase);
      state.world := state.world.(balances := Credit(state.world.balances, coinbase, Wei(used, msg.price)));
      r := Ok(used, out.failed);
    }

    /** Applies the message: the pool loses exactly the gas used, which is at least half of what was
        consumed and of the intrinsic gas; all payments balance. */
    method TransitionDb() returns (r: Result)
      requires gas == 0 && Frugal(evm) && gp.gas <= MAX_UINT64
      modifies this`gas, this`initialGas, gp`gas, state
      ensures Step(r, state.world, gp.gas) == Applied(evm, Terms(coinbase, eip2, eip2028), old(state.world), old(gp.gas), msg)
      ensures r.Ok? ==>
                && r.used <= msg.gas <= old(gp.gas) && Exact() <= 2 * r.used
                && Wei(msg.gas, msg.price) <= At(old(state.world.balances), msg.from) && Exact() <= msg.gas
                && var start := Charged(old(state.world), msg);
                   var out := evm(start, msg, msg.gas - Exact());
                   Sum(state.world.balances) == Sum(old(state.world.balances)) + Sum(out.world.balances) - Sum(start.balances)
    {
      hide Credit, Debit, At, ExactGas, Used, Wei;
      ghost var world := state.world;
      var refused := PreCheck();
      if refused.Some? {
        return Err(refused.value);
      }
      var intrinsic := IntrinsicGas(msg.data, msg.to == None, eip2, eip2028);
      if intrinsic == None {
        return Err(GasUintOverflow);
      }
      if gas < intrinsic.value {
        return Err(IntrinsicGasTooLow);
      }
      gas := gas - intrinsic.value;
      if msg.value > 0 && !(Balance() >= msg.value) {
        return Err(InsufficientFundsForTransfer);
      }
      r := Execute(world);
    }
  }

  datatype Receipt = Receipt(cumulative: nat, used: nat, failed: bool)

  /** The virtual machine moves ether but neither makes nor destroys any. */
  ghost predicate Conserving(evm: Evm) {
    forall w, m, g :: Sum(evm(w, m, g).world.balances) == Sum(w.balances)
  }

  /** The virtual machine makes no ether; a contract may still destroy its own. */
  ghost predicate NeverMinting(evm: Evm) {
    forall w, m, g :: Sum(evm(w, m, g).world.balances) <= Sum(w.balances)
  }

  datatype Block = Block(txs: seq<Msg>, gasLimit: nat, coinbase: Address, eip2: bool, eip2028: bool)

  ghost function TotalUsed(receipts: seq<Receipt>): nat {
    if receipts == [] then 0 else TotalUsed(receipts[..|receipts| - 1]) + receipts[|receipts| - 1].used
  }

  /** Each receipt accumulates the gas used up to and including its own transaction. */
  ghost predicate Accumulated(receipts: seq<Receipt>) {
    forall i :: 0 <= i < |receipts| ==> receipts[i].cumulative == TotalUsed(receipts[..i + 1])
  }

  lemma Accumulate(receipts: seq<Receipt>, r: Receipt)
    requires Accumulated(receipts) && r.cumulative == TotalUsed(receipts) + r.used
    ensures Accumulated(receipts + [r]) && TotalUsed(receipts + [r]) == TotalUsed(receipts) + r.used
  {
    var rs := receipts + [r];
    assert rs[..|receipts|] == receipts;
    forall i | 0 <= i < |rs| ensures rs[i].cumulative == TotalUsed(rs[..i + 1]) {
      if i < |receipts| {
        assert rs[..i + 1] == receipts[..i + 1];
      } else {
        assert rs[..i + 1] == rs;
      }
    }
  }

  function TermsOf(block: Block): Terms {
    Terms(block.coinbase, block.eip2, block.eip2028)
  }

  method ApplyTransaction(block: Block, gp: GasPool, state: StateDb, msg: Msg, evm: Evm, usedGas: nat) returns (r: Result, receipt: Receipt)
    requires Frugal(evm) && gp.gas <= MAX_UINT64
    modifies gp`gas, state
    ensures Step(r, state.world, gp.gas) == Applied(evm, TermsOf(block), old(state.world), old(gp.gas), msg)
    ensures r.Ok? ==> receipt == Receipt(usedGas + r.used, r.used, r.failed) && state.refund == 0
    ensures r.Ok? ==> r.used <= msg.gas <= old(gp.gas)
    ensures r.Ok? && Conserving(evm) ==> Sum(state.world.balances) == old(Sum(state.world.balances))
    ensures r.Ok? && NeverMinting(evm) ==> Sum(state.world.balances) <= old(Sum(state.world.balances))
  {
    hide At, Wei, Used, ExactGas, Settled, Charged, Refusal, Rejection, Applied;
    var st := new StateTransition(gp, state, msg, evm, block.coinbase, block.eip2, block.eip2028);
    r := st.TransitionDb();
    receipt := Receipt(0, 0, true);
    if r.Ok? {
      state.refund := 0;
      receipt := Receipt(usedGas + r.used, r.used, r.failed);
    }
  }

  /** How far a block has come: the state, the gas left in the pool, a receipt for each message, and
      the error that stopped it. */
  datatype Progress = Progress(world: World, pool: nat, receipts: seq<Receipt>, error: Option<ConsensusError>)

  /** The first n messages, each applied to what its predecessors left, until one fails. */
  ghost function Advanced(block: Block, evm: Evm, w: World, n: nat): Progress
    requires Frugal(evm) && n <= |block.txs|
  {
    if n == 0 then Progress(w, block.gasLimit, [], None) else
    var p := Advanced(block, evm, w, n - 1);
    if p.error.Some? then p else
    var step := Applied(evm, TermsOf(block), p.world, p.pool, block.txs[n - 1]);
    Advance(p, step.result, step.world, step.pool)
  }

  ghost function Advance(p: Progress, r: Result, world: World, pool: nat): Progress {
    match r
    case Err(e) => Progress(world, pool, p.receipts, Some(e))
    case Ok(used, failed) => Progress(world, pool, p.receipts + [Receipt(TotalUsed(p.receipts) + used, used, failed)], None)
  }

  lemma AdvanceOne(block: Block, evm: Evm, w: World, n: nat, p: Progress, r: Result, world: World, pool: nat)
    requires Frugal(evm) && n < |block.txs| && Advanced(block, evm, w, n) == p && p.error == None
    requires Step(r, world, pool) == Applied(evm, TermsOf(block), p.world, p.pool, block.txs[n])
    ensures Advanced(block, evm, w, n + 1) == Advance(p, r, world, pool)
  {
    hide Applied, TotalUsed, Frugal;
  }

  /** The outcome of message k at its turn. */
  ghost function Turn(block: Block, evm: Evm, w: World, k: nat): Result
    requires Frugal(evm) && k < |block.txs|
  {
    var p := Advanced(block, evm, w, k);
    Applied(evm, TermsOf(block), p.world, p.pool, block.txs[k]).result
  }

  /** A block stops with an error exactly when some message fails with it at its turn and all before
      it succeed; otherwise every receipt tells what its message used at its turn. */
  lemma {:induction false} FirstError(block: Block, evm: Evm, w: World, n: nat)
    requires Frugal(evm) && n <= |block.txs|
    ensures var p := Advanced(block, evm, w, n);
            && (p.error == None <==> forall k :: 0 <= k < n ==> Turn(block, evm, w, k).Ok?)
            && (forall e :: p.error == Some(e) <==> exists k :: 0 <= k < n && FailsAt(block, evm, w, k, e))
            && (p.error == None ==> |p.receipts| == n)
            && forall i :: 0 <= i < |p.receipts| ==>
                 i < n && Turn(block, evm, w, i) == Ok(p.receipts[i].used, p.receipts[i].failed)
  {
    hide Applied, Advanced, Turn, Frugal;
    if n == 0 {
      Unstarted(block, evm, w);
    } else {
      FirstError(block, evm, w, n - 1);
      var prev, r := Advanced(block, evm, w, n - 1), Turn(block, evm, w, n - 1);
      TurnNext(block, evm, w, n - 1);
      forall e ensures Advanced(block, evm, w, n).error == Some(e) <==> exists k :: 0 <= k < n && FailsAt(block, evm, w, k, e) {
        if prev.error == None && r == Err(e) {
          assert FailsAt(block, evm, w, n - 1, e);
        }
      }
    }
  }

  lemma TurnNext(block: Block, evm: Evm, w: World, n: nat)
    requires Frugal(evm) && n < |block.txs|
    ensures var prev, p, r := Advanced(block, evm, w, n), Advanced(block, evm, w, n + 1), Turn(block, evm, w, n);
            if prev.error.Some? then p == prev
            else if r.Err? then p.error == Some(r.error) && p.receipts == prev.receipts
            else p.error == None && exists total :: p.receipts == prev.receipts + [Receipt(total, r.used, r.failed)]
  {
    hide Applied, TotalUsed;
  }

  /** Message k is the first to fail, with the given error. */
  ghost predicate FailsAt(block: Block, evm: Evm, w: World, k: nat, e: ConsensusError)
    requires Frugal(evm) && k < |block.txs|
  {
    Turn(block, evm, w, k) == Err(e) && forall j :: 0 <= j < k ==> Turn(block, evm, w, j).Ok?
  }

  /** What the gas of the messages of an account cost, and what all of it cost. */
  ghost function Spent(txs: seq<Msg>, receipts: seq<Receipt>, a: Address): nat
    requires |receipts| <= |txs|
  {
    if receipts == [] then 0 else
    var n := |receipts| - 1;
    Spent(txs, receipts[..n], a) + if txs[n].from == a then Wei(receipts[n].used, txs[n].price) else 0
  }

  ghost function Fees(txs: seq<Msg>, receipts: seq<Receipt>): nat
    requires |receipts| <= |txs|
  {
    if receipts == [] then 0 else
    var n := |receipts| - 1;
    Fees(txs, receipts[..n]) + Wei(receipts[n].used, txs[n].price)
  }

  /** Over a block in which the machine moves no ether, every account pays for its own messages, and
      the miner of the block gets all of it. */
  lemma {:induction false} Ledger(block: Block, evm: Evm, w: World, n: nat, a: Address)
    requires Frugal(evm) && Still(evm) && n <= |block.txs| && Advanced(block, evm, w, n).error == None
    ensures var p := Advanced(block, evm, w, n);
            && |p.receipts| == n
            && At(p.world.balances, a) + Spent(block.txs, p.receipts, a) ==
               At(w.balances, a) + if a == block.coinbase then Fees(block.txs, p.receipts) else 0
  {
    hide Applied, Wei, At, Still;
    if n > 0 {
      Ledger(block, evm, w, n - 1, a);
      var prev, p := Advanced(block, evm, w, n - 1), Advanced(block, evm, w, n);
      Transfer(evm, TermsOf(block), prev.world, prev.pool, block.txs[n - 1], a);
      assert p.receipts[..n - 1] == prev.receipts;
    }
  }

  /** Applies the transactions of a block in order. Gas used and gas left in the pool always make up
      the limit; receipts hold prefix sums; paying for gas makes or destroys no ether. */
  method Process(block: Block, state: StateDb, evm: Evm) returns (receipts: seq<Receipt>, usedGas: nat, error: Option<ConsensusError>)
    requires Frugal(evm) && block.gasLimit <= MAX_UINT64
    modifies state
    ensures var p := Advanced(block, evm, old(state.world), |block.txs|);
            && state.world == p.world && error == p.error && receipts == if error == None then p.receipts else []
    ensures error.Some? ==> receipts == [] && usedGas == 0
    ensures error == None ==> |receipts| == |block.txs| && Accumulated(receipts) && usedGas == TotalUsed(receipts) <= block.gasLimit
    ensures error == None && Conserving(evm) ==> Sum(state.world.balances) == old(Sum(state.world.balances))
    ensures error == None && NeverMinting(evm) ==> Sum(state.world.balances) <= old(Sum(state.world.balances))
    ensures error == None ==> forall i :: 0 <= i < |receipts| ==> receipts[i].used <= block.txs[i].gas
  {
    hide Accumulated, Frugal, Conserving, NeverMinting, Applied, Advanced, TotalUsed;
    receipts, usedGas := [], 0;
    Nothing();
    Unstarted(block, evm, state.world);
    var gp := new GasPool();
    var ok := gp.AddGas(block.gasLimit);
    for i := 0 to |block.txs|
      invariant Advanced(block, evm, old(state.world), i) == Progress(state.world, gp.gas, receipts, None)
      invariant |receipts| == i && Accumulated(receipts) && usedGas == TotalUsed(receipts)
      invariant usedGas + gp.gas == block.gasLimit
      invariant Conserving(evm) ==> Sum(state.world.balances) == old(Sum(state.world.balances))
      invariant NeverMinting(evm) ==> Sum(state.world.balances) <= old(Sum(state.world.balances))
      invariant forall j :: 0 <= j < |receipts| ==> receipts[j].used <= block.txs[j].gas
    {
      PoolLeft(evm, TermsOf(block), state.world, gp.gas, block.txs[i]);
      ghost var p := Progress(state.world, gp.gas, receipts, None);
      var r, receipt := ApplyTransaction(block, gp, state, block.txs[i], evm, usedGas);
      AdvanceOne(block, evm, old(state.world), i, p, r, state.world, gp.gas);
      if r.Err? {
        Stopped(block, evm, old(state.world), i + 1, |block.txs|);
        return [], 0, Some(r.error);
      }
      Accumulate(receipts, receipt);
      usedGas := usedGas + r.used;
      receipts := receipts + [receipt];
    }
    error := None;
  }

  /** The pool shrinks by the gas used. */
  lemma PoolLeft(evm: Evm, terms: Terms, w: World, pool: nat, msg: Msg)
    requires Frugal(evm)
    ensures var step := Applied(evm, terms, w, pool, msg);
            step.result.Ok? ==> step.result.used <= msg.gas <= pool && step.pool == pool - step.result.used
  {
    hide At, Wei, ExactGas, Settled;
  }

  /** Nothing is applied after an error. */
  lemma {:induction false} Stopped(block: Block, evm: Evm, w: World, k: nat, n: nat)
    requires Frugal(evm) && k <= n <= |block.txs| && Advanced(block, evm, w, k).error.Some?
    ensures Advanced(block, evm, w, n) == Advanced(block, evm, w, k)
    decreases n
  {
    hide Applied;
    if k < n {
      Stopped(block, evm, w, k, n - 1);
    }
  }

  lemma Unstarted(block: Block, evm: Evm, w: World)
    requires Frugal(evm)
    ensures Advanced(block, evm, w, 0) == Progress(w, block.gasLimit, [], None)
  {
  }

  lemma Nothing()
    ensures Accumulated([]) && TotalUsed([]) == 0
  {
  }
}
