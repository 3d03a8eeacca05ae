/** The transaction pool: pending and queued lists per account, the lookup of everything pooled,
    the price heap and the virtual nonces, as one object whose operations are atomic steps
    (core/tx_pool.go). */
module Pool {
  import opened Collections
  import opened TxTypes
  import opened List
  import opened PoolModel
  import opened Priced
  import opened Noncer
  import opened Promotion
  import opened Demotion
  import opened Totals
  import opened Fairness
  import opened Trimming
  import opened Submission
  import opened Outflow
  import opened Rebuilding
  import Intrinsic

  /** A new head: its state, and the transactions of abandoned blocks that the new ones lack. */
  datatype NewHead = NewHead(state: ChainState, reinject: seq<Tx>)

  /** What a background run is told: no new head, a new head whose reset gave up for want of blocks
      or state, or a new head. */
  datatype HeadEvent = Unmoved | Abandoned | Moved(head: NewHead)

  class TxPool {
    const config: Config
    const all: TxLookup
    const priced: TxPricedList
    var pendingNonces: TxNoncer
    var state: ChainState
    var gasPrice: nat
    var locals: set<Address>
    var pending: Lists
    var queue: Lists
    var beats: map<Address, int>
    var clock: int

    /** The structures agree, up to transactions that are on their way between lists. */
    ghost predicate Sound(floating: set<Tx>)
      reads this`pending, this`queue, this`beats, all
    {
      && Consistent(pending, queue, all.all, floating)
      && all.Valid()
      && queue.Keys <= beats.Keys
    }

    ghost predicate Valid()
      reads this, all, priced
    {
      Sound({}) && priced.all == all && priced.Valid()
    }

    function Rules(): Terms
      reads this`state, this`gasPrice
    {
      Terms(config, state, gasPrice)
    }

    ghost function Held(): Stock
      reads this`locals, all, priced
    {
      Stock(all.all, priced.items, locals)
    }

    ghost function Now(): Snapshot
      reads this, all, priced, pendingNonces
    {
      Snapshot(Rules(), Held(), pending, queue, pendingNonces.View(), beats, clock)
    }

    /** The heartbeats once the account has shown a sign of life. */
    function Beat(before: map<Address, int>, a: Address): map<Address, int>
      reads this`clock
    {
      before[a := clock]
    }

    /** The heartbeats once something of the account was queued: only an account without one gets one. */
    function FirstBeat(before: map<Address, int>, a: Address): map<Address, int>
      reads this`clock
    {
      if a in before then before else before[a := clock]
    }

    constructor (config: Config, state: ChainState, gasPrice: nat, locals: set<Address>)
      ensures Valid() && pending == map[] && queue == map[]
      ensures this.config == config && Rules() == Terms(config, state, gasPrice) && Held() == Stock({}, [], locals)
      ensures fresh(all) && fresh(priced) && fresh(pendingNonces)
      ensures forall b :: SteadyAt(b)
    {
      var lookup := new TxLookup();
      all := lookup;
      priced := new TxPricedList(lookup);
      pendingNonces := new TxNoncer(state.nonce);
      this.config, this.state, this.gasPrice, this.locals := config, state, gasPrice, locals;
      pending, queue, beats, clock := map[], map[], map[], 0;
    }

    /** Brings the lookup and the price heap in line with a transaction that entered a list. */
    method Admit(tx: Tx, replaced: Option<Tx>)
      requires all.Valid() && priced.all == all
      requires replaced.Some? ==> replaced.value in all.all && replaced.value != tx
      requires tx in all.all ==> replaced == None
      requires tx !in all.all ==> priced.Valid()
      modifies all, priced
      ensures all.Valid()
      ensures all.all == old(all.all) - AsSet(replaced) + {tx}
      ensures tx in old(all.all) ==> priced.items == old(priced.items) && priced.stales == old(priced.stales)
      ensures tx !in old(all.all) ==> priced.Valid()
      ensures tx !in old(all.all) && replaced == None ==> multiset(priced.items) == multiset(old(priced.items)) + multiset{tx}
    {
      if replaced.Some? {
        all.Remove(replaced.value);
        priced.Removed(1);
      }
      if tx !in all.all {
        all.Add(tx);
        assert all.all - {tx} == old(all.all) - AsSet(replaced);
        priced.Put(tx);
      }
    }

    /** Inserts a transaction into the queue: a new one, or one that lost its pending place. */
    method EnqueueTx(tx: Tx, ghost floating: set<Tx>) returns (r: Outcome)
      requires Sound(floating) && priced.all == all
      requires tx !in floating ==> tx !in all.all && tx.nonce !in Items(pending, tx.sender) && NoClash(floating, tx)
      requires tx !in floating ==> priced.Valid()
      modifies this`queue, this`beats, all, priced
      ensures Sound(floating - {tx})
      ensures var add := ListOf(old(queue), tx.sender, false).Add(tx, config.priceBump);
              if add.inserted then
                && r == Added(add.replaced.Some?)
                && queue == old(queue)[tx.sender := add.list]
                && all.all == old(all.all) - AsSet(add.replaced) + {tx}
                && beats == FirstBeat(old(beats), tx.sender)
              else
                && r == Rejected(ReplaceUnderpriced)
                && queue == old(queue) && all.all == old(all.all) && beats == old(beats)
      ensures tx in floating ==>
                && r == Added(false) && all.all == old(all.all)
                && priced.items == old(priced.items) && priced.stales == old(priced.stales)
      ensures tx !in floating ==> priced.Valid()
      ensures tx !in floating && r == Added(false) ==> multiset(priced.items) == multiset(old(priced.items)) + multiset{tx}
      ensures r.Added? ==> Items(queue, tx.sender) == Items(old(queue), tx.sender)[tx.nonce := tx]
      ensures queue - {tx.sender} == old(queue) - {tx.sender}
      ensures beats - {tx.sender} == old(beats) - {tx.sender}
    {
      hide Agree, ListsOk, Covers;
      var from := tx.sender;
      var add := ListOf(queue, from, false).Add(tx, config.priceBump);
      if tx in floating {
        FloatingFits(pending, queue, all.all, floating, tx);
      } else {
        assert floating - {tx} == floating;
      }
      if !add.inserted {
        return Rejected(ReplaceUnderpriced);
      }
      AgreeSymmetric(pending, queue, all.all, floating);
      Grow(queue, pending, false, all.all, floating, tx, config.priceBump);
      queue := queue[from := add.list];
      Admit(tx, add.replaced);
      AgreeSymmetric(queue, pending, all.all, floating - {tx});
      if from !in beats {
        beats := beats[from := clock];
      }
      r := Added(add.replaced.Some?);
    }

    /** Drops a batch of transactions from the lookup, one by one. */
    method RemoveAll(txs: NonceMap)
      requires all.Valid() && Keyed(txs) && Txs(txs) <= all.all
      modifies all
      ensures all.Valid() && all.all == old(all.all) - Txs(txs)
    {
      var todo := txs;
      while todo != map[]
        invariant all.Valid() && Keyed(todo) && Txs(todo) <= Txs(txs)
        invariant all.all == old(all.all) - (Txs(txs) - Txs(todo))
        decreases |todo|
      {
        var n :| n in todo;
        var tx := todo[n];
        assert tx in Txs(todo);
        all.Remove(tx);
        ValuesMinus(todo, n);
        todo := todo - {n};
      }
    }

    lemma BeatTwice(before: map<Address, int>, a: Address)
      ensures FirstBeat(FirstBeat(before, a), a) == FirstBeat(before, a) && FirstBeat(before, a) - {a} == before - {a}
      ensures Beat(Beat(before, a), a) == Beat(before, a) && Beat(before, a) - {a} == before - {a}
    {
    }

    /** Moves a batch of floating transactions of one account into its queue. */
    method EnqueueAll(a: Address, txs: NonceMap, ghost floating: set<Tx>)
      requires Sound(floating) && priced.all == all
      requires Keyed(txs) && Txs(txs) <= floating && forall n :: n in txs ==> txs[n].sender == a
      modifies this`queue, this`beats, all, priced
      ensures Sound(floating - Txs(txs))
      ensures all.all == old(all.all) && priced.items == old(priced.items) && priced.stales == old(priced.stales)
      ensures Items(queue, a) == Items(old(queue), a) + txs && queue - {a} == old(queue) - {a}
      ensures beats == if txs == map[] then old(beats) else FirstBeat(old(beats), a)
    {
      hide *;
      AllOrNone(floating, txs, Items(queue, a));
      var todo := txs;
      while todo != map[]
        invariant Part(todo, txs)
        invariant Sound(StillFloating(floating, txs, todo))
        invariant all.all == old(all.all) && priced.items == old(priced.items) && priced.stales == old(priced.stales)
        invariant Items(queue, a) == Items(old(queue), a) + Done(txs, todo) && queue - {a} == old(queue) - {a}
        invariant beats == if todo == txs then old(beats) else FirstBeat(old(beats), a)
        decreases |todo|
      {
        var n :| n in todo;
        OneLess(floating, txs, todo, n);
        BeatTwice(old(beats), a);
        MergeOne(Items(old(queue), a), Done(txs, todo), n, todo[n]);
        var r := EnqueueTx(todo[n], StillFloating(floating, txs, todo));
        todo := todo - {n};
      }
    }

    /** The account's pending nonces are exactly those from the chain's nonce up to, but excluding,
        the virtual nonce, and each of its pending transactions can be paid for. */
    ghost predicate SteadyAt(a: Address)
      reads this`pending, this`state, this`pendingNonces, pendingNonces
    {
      && Contiguous(Items(pending, a), state.nonce(a), pendingNonces.Nonce(a))
      && Payable(Items(pending, a), state.balance(a), state.maxGas)
    }

    /** Nothing is pending and the virtual nonce lies below the chain's, so nothing can be promoted. */
    ghost predicate LaggingAt(a: Address)
      reads this`pending, this`state, this`pendingNonces, pendingNonces
    {
      Items(pending, a) == map[] && pendingNonces.Nonce(a) < state.nonce(a)
    }

    /** The pending nonces of an account are gapless from the chain's nonce on and payable, and they
        end at the virtual nonce, unless there are none and it lags behind. */
    ghost predicate OrderlyAt(a: Address)
      reads this`pending, this`state, this`pendingNonces, pendingNonces
    {
      SteadyAt(a) || LaggingAt(a)
    }

    /** Takes a transaction that just left the lookup out of the pending list of its account. */
    method DropPending(tx: Tx)
      requires all.Valid() && priced.all == all && queue.Keys <= beats.Keys
      requires tx !in all.all && Consistent(pending, queue, all.all + {tx}, {}) && tx.nonce in Items(pending, tx.sender)
      modifies this`pending, this`queue, this`beats, all, priced, pendingNonces
      ensures Sound({}) && all.all == old(all.all)
      ensures priced.items == old(priced.items) && priced.stales == old(priced.stales)
      ensures pending - {tx.sender} == old(pending) - {tx.sender} && queue - {tx.sender} == old(queue) - {tx.sender}
      ensures beats == if AtLeast(Items(old(pending), tx.sender), tx.nonce + 1) == map[] then old(beats) else FirstBeat(old(beats), tx.sender)
      ensures Items(pending, tx.sender) == Below(Items(old(pending), tx.sender), tx.nonce)
      ensures Items(queue, tx.sender) == Items(old(queue), tx.sender) + AtLeast(Items(old(pending), tx.sender), tx.nonce + 1)
      ensures forall b :: pendingNonces.Nonce(b) ==
                          if b == tx.sender && tx.nonce < old(pendingNonces.Nonce(b)) then tx.nonce
                          else old(pendingNonces.Nonce(b))
    {
      hide Consistent, Items, Store, Below, AtLeast, Keyed;
      var a := tx.sender;
      RemovePending(pending, queue, all.all, tx);
      var r := pending[a].Remove(tx.nonce);
      pending := Store(pending, a, r.list);
      EnqueueAll(a, r.invalids, Txs(r.invalids));
      assert Txs(r.invalids) - Txs(r.invalids) == {};
      pendingNonces.SetIfLower(a, tx.nonce);
    }

    /** The same, with what it means for nonce intervals. */
    method CutPending(tx: Tx)
      requires all.Valid() && priced.all == all && queue.Keys <= beats.Keys
      requires tx !in all.all && Consistent(pending, queue, all.all + {tx}, {}) && tx.nonce in Items(pending, tx.sender)
      modifies this`pending, this`queue, this`beats, all, priced, pendingNonces
      ensures Sound({}) && all.all == old(all.all)
      ensures priced.items == old(priced.items) && priced.stales == old(priced.stales)
      ensures pending - {tx.sender} == old(pending) - {tx.sender} && queue - {tx.sender} == old(queue) - {tx.sender}
      ensures beats == if AtLeast(Items(old(pending), tx.sender), tx.nonce + 1) == map[] then old(beats) else FirstBeat(old(beats), tx.sender)
      ensures Items(pending, tx.sender) == Below(Items(old(pending), tx.sender), tx.nonce)
      ensures Items(queue, tx.sender) == Items(old(queue), tx.sender) + AtLeast(Items(old(pending), tx.sender), tx.nonce + 1)
      ensures forall b :: old(SteadyAt(b)) ==> SteadyAt(b)
      ensures Trims(old(pending), old(pendingNonces.View()), pending, pendingNonces.View())
    {
      hide Sound, Consistent, Items, Below, AtLeast, Contiguous, Payable, Trims;
      var a := tx.sender;
      DropPending(tx);
      ItemsFrame(old(pending), pending, a);
      forall b ensures pendingNonces.View().At(b) == pendingNonces.Nonce(b) && old(pendingNonces.View()).At(b) == old(pendingNonces.Nonce(b)) {}
      TrimOne(old(pending), old(pendingNonces.View()), pending, pendingNonces.View(), a, tx.nonce);
      if old(SteadyAt(a)) {
        CutContiguous(Items(old(pending), a), state.nonce(a), old(pendingNonces.Nonce(a)), tx.nonce);
        PayableBelow(Items(old(pending), a), tx.nonce, state.balance(a), state.maxGas);
      }
    }

    /** Takes a transaction that just left the lookup out of the queue of its account. */
    method DropQueued(tx: Tx)
      requires all.Valid() && priced.all == all && queue.Keys <= beats.Keys
      requires tx !in all.all && Consistent(pending, queue, all.all + {tx}, {}) && tx.nonce !in Items(pending, tx.sender)
      modifies this`queue, this`beats
      ensures Sound({})
      ensures queue - {tx.sender} == old(queue) - {tx.sender}
      ensures beats == if tx.sender in queue then old(beats) else old(beats) - {tx.sender}
      ensures Items(queue, tx.sender) == Items(old(queue), tx.sender) - {tx.nonce}
    {
      hide Consistent, Items;
      var a := tx.sender;
      RemoveQueued(pending, queue, all.all, tx);
      var r := queue[a].Remove(tx.nonce);
      queue := Store(queue, a, r.list);
      if r.list.items == map[] {
        beats := beats - {a};
      }
      KeysFrame(old(queue), queue, old(beats), beats, a);
    }

    /** Removes one transaction from the pool; pending transactions above it return to the queue. */
    method RemoveTx(tx: Tx, outofbound: bool)
      requires Sound({}) && priced.all == all
      requires outofbound ==> priced.Valid()
      modifies this`pending, this`queue, this`beats, all, priced, pendingNonces
      ensures Sound({}) && all.all == old(all.all) - {tx}
      ensures if outofbound then priced.Valid() else priced.items == old(priced.items) && priced.stales == old(priced.stales)
      ensures tx !in old(all.all) ==> pending == old(pending) && queue == old(queue) && beats == old(beats)
      ensures pending - {tx.sender} == old(pending) - {tx.sender} && queue - {tx.sender} == old(queue) - {tx.sender}
      ensures beats - {tx.sender} == old(beats) - {tx.sender}
      ensures tx in old(all.all) ==>
                var p, q := Items(old(pending), tx.sender), Items(old(queue), tx.sender);
                if tx.nonce in p then
                  && Items(pending, tx.sender) == Below(p, tx.nonce)
                  && Items(queue, tx.sender) == q + AtLeast(p, tx.nonce + 1)
                  && beats == if AtLeast(p, tx.nonce + 1) == map[] then old(beats) else FirstBeat(old(beats), tx.sender)
                else
                  && pending == old(pending) && Items(queue, tx.sender) == q - {tx.nonce}
                  && beats == if tx.sender in queue then old(beats) else old(beats) - {tx.sender}
      ensures forall b :: old(SteadyAt(b)) ==> SteadyAt(b)
      ensures tx.nonce !in Items(old(pending), tx.sender) ==> pendingNonces.View() == old(pendingNonces.View())
      ensures Trims(old(pending), old(pendingNonces.View()), pending, pendingNonces.View())
      ensures Prunes(old(pending), pending, {tx})
    {
      hide Consistent, Covers, Store, Below, AtLeast, Keyed, SteadyAt, Trims, Prunes;
      TrimsNothing(pending, pendingNonces.View());
      if tx !in all.all {
        PrunesOne(pending, queue, all.all, pending, tx);
        assert all.all - {tx} == all.all;
        return;
      }
      var a := tx.sender;
      if outofbound {
        CoversFewer(all.all, {tx}, priced.items, priced.stales);
      }
      all.Remove(tx);
      assert all.all + {tx} == old(all.all);
      if outofbound {
        priced.Removed(1);
      }
      BeatTwice(beats, a);
      if a in pending && tx.nonce in pending[a].items {
        CutPending(tx);
      } else {
        DropQueued(tx);
      }
      PrunesOne(old(pending), old(queue), old(all.all), pending, tx);
    }

    /** Accepts exactly the transactions that meet all rules, and names a broken one otherwise. */
    method ValidateTx(tx: Tx, local: bool) returns (r: Option<Error>)
      requires tx.gas <= Intrinsic.MAX_UINT64
      ensures r == None <==> Fits(Rules(), locals, tx, local)
      ensures r.Some? ==> FirstBroken(Rules(), locals, tx, local, r.value)
    {
      hide Intrinsic.ExactGas;
      if tx.size > TX_MAX_SIZE { return Some(OversizedData); }
      if tx.value < 0 { return Some(NegativeValue); }
      if state.maxGas < tx.gas { return Some(GasLimit); }
      if !(local || tx.sender in locals) && tx.price < gasPrice { return Some(Underpriced); }
      if state.nonce(tx.sender) > tx.nonce { return Some(NonceTooLow); }
      if state.balance(tx.sender) < tx.Cost() { return Some(InsufficientFunds); }
      var gas := Intrinsic.IntrinsicGas(tx.data, tx.create, state.eip2, state.eip2028);
      if gas == None { return Some(GasUintOverflow); }
      if tx.gas < gas.value { return Some(IntrinsicGasTooLow); }
      r := None;
    }

    /** Removes transactions the price heap already gave up. */
    method RemoveDropped(drop: seq<Tx>)
      requires Sound({}) && priced.all == all
      requires Covers(all.all - Elements(drop), priced.items, priced.stales)
      modifies this`pending, this`queue, this`beats, all, priced, pendingNonces
      ensures Valid() && all.all == old(all.all) - Elements(drop)
      ensures forall b :: old(SteadyAt(b)) ==> SteadyAt(b)
      ensures Trims(old(pending), old(pendingNonces.View()), pending, pendingNonces.View())
      ensures drop == [] ==> pending == old(pending) && queue == old(queue) && pendingNonces.View() == old(pendingNonces.View())
      ensures Prunes(old(pending), pending, Elements(drop))
    {
      hide Sound, Covers, SteadyAt, Trims, Prunes;
      TrimsNothing(pending, pendingNonces.View());
      PrunesNothing(pending);
      assert Elements(drop[..0]) == {};
      assert old(all.all) - Elements(drop[..0]) == old(all.all);
      for i := 0 to |drop|
        invariant Sound({}) && priced.all == all
        invariant all.all == old(all.all) - Elements(drop[..i])
        invariant priced.items == old(priced.items) && priced.stales == old(priced.stales)
        invariant forall b :: old(SteadyAt(b)) ==> SteadyAt(b)
        invariant Trims(old(pending), old(pendingNonces.View()), pending, pendingNonces.View())
        invariant Prunes(old(pending), pending, Elements(drop[..i]))
        invariant drop == [] ==> pending == old(pending) && queue == old(queue) && pendingNonces.View() == old(pendingNonces.View())
      {
        assert drop[..i + 1] == drop[..i] + [drop[i]];
        ghost var was, nonces := pending, pendingNonces.View();
        RemoveTx(drop[i], false);
        PrunesTwice(old(pending), was, pending, Elements(drop[..i]), {drop[i]});
        assert Elements(drop[..i + 1]) == Elements(drop[..i]) + {drop[i]};
        TrimsTwice(old(pending), old(pendingNonces.View()), was, nonces, pending, pendingNonces.View());
      }
      assert drop[..|drop|] == drop;
    }

    /** Makes room in a full pool for a better transaction. The room-making list can be allocated
        unless there are no local accounts and more slots must be freed than the heap has entries;
        then there is room afterwards exactly when the heap allows it. */
    method MakeRoom(tx: Tx) returns (drop: Option<seq<Tx>>)
      requires Valid() && Capacity(config) <= |all.all|
      modifies this`pending, this`queue, this`beats, all, priced, pendingNonces
      ensures Valid()
      ensures var slots, heap := SlotsNeeded(config, old(all.all), tx), old(priced.items);
              if locals == {} && slots > |heap| then
                && drop == None && all.all == old(all.all) && pending == old(pending) && queue == old(queue)
                && pendingNonces.View() == old(pendingNonces.View())
              else
                && drop == Some(Enough(Candidates(heap, old(all.all), locals), Wanted(heap, slots, locals)))
                && Discarded(old(all.all), drop.value, Wanted(heap, slots, locals), locals)
                && all.all == old(all.all) - Elements(drop.value) && Prunes(old(pending), pending, Elements(drop.value))
                && (HasRoom(config, all.all, locals, tx) <==> RoomIn(heap, old(all.all), locals, slots))
                && (drop == Some([]) ==> pending == old(pending) && queue == old(queue) && pendingNonces.View() == old(pendingNonces.View()))
      ensures forall b :: old(SteadyAt(b)) ==> SteadyAt(b)
      ensures Trims(old(pending), old(pendingNonces.View()), pending, pendingNonces.View())
    {
      hide Consistent, Covers, SteadyAt, Discarded, Trims, Prunes, RoomMade, RoomFor, Candidates, Enough, Slots, NumSlots, RemoteEntries;
      TrimsNothing(pending, pendingNonces.View());
      RemoteEntriesBound(priced.items, locals);
      SlotsAtLeastCount(all.all);
      drop := priced.Discard(all.slots - Capacity(config) + NumSlots(tx), locals);
      if drop == None {
        return;
      }
      RoomLeft(all.all, drop.value, Wanted(old(priced.items), SlotsNeeded(config, all.all, tx), locals), Capacity(config), tx, locals);
      RemoveDropped(drop.value);
    }

    /** The sender can pay for the transaction and it fits the block gas limit. */
    ghost predicate Validated(tx: Tx)
      reads this`state
    {
      !Unpayable(state.balance(tx.sender), state.maxGas)(tx)
    }

    /** Puts a validated new transaction into the list its nonce belongs to. */
    method Insert(tx: Tx, local: bool) returns (r: Outcome)
      requires Valid() && tx !in all.all && Validated(tx)
      modifies this`pending, this`queue, this`beats, this`locals, all, priced
      ensures Valid()
      ensures pending - {tx.sender} == old(pending) - {tx.sender} && queue - {tx.sender} == old(queue) - {tx.sender}
      ensures var p, q := Items(old(pending), tx.sender), Items(old(queue), tx.sender);
              var prior := if tx.nonce in p then Prior(old(pending), tx) else Prior(old(queue), tx);
              if prior.Some? && !ListState.Replaces(tx, prior.value, config.priceBump) then
                && r == Rejected(ReplaceUnderpriced)
                && pending == old(pending) && queue == old(queue) && all.all == old(all.all) && beats == old(beats)
              else
                && beats == (if tx.nonce in p then Beat(old(beats), tx.sender) else FirstBeat(old(beats), tx.sender))
                && r == Added(prior.Some?)
                && all.all == old(all.all) - AsSet(prior) + {tx}
                && Items(pending, tx.sender) == (if tx.nonce in p then p[tx.nonce := tx] else p)
                && Items(queue, tx.sender) == (if tx.nonce in p then q else q[tx.nonce := tx])
      ensures var prior := if tx.nonce in Items(old(pending), tx.sender) then Prior(old(pending), tx) else Prior(old(queue), tx);
              prior.Some? ==> prior.value.sender == tx.sender && prior.value.nonce == tx.nonce
      ensures r == Added(false) ==> multiset(priced.items) == multiset(old(priced.items)) + multiset{tx}
      ensures locals == if local && r.Added? && tx.nonce !in Items(old(pending), tx.sender)
                        then old(locals) + {tx.sender} else old(locals)
      ensures r == Added(false) ==> tx.nonce !in Items(old(pending), tx.sender)
      ensures SameKeys(old(pending), pending)
      ensures forall b :: old(SteadyAt(b)) ==> SteadyAt(b)
    {
      hide Consistent, Covers, SteadyAt, Slots, ListState.Replaces;
      PriorFits(pending, queue, all.all, tx);
      var from := tx.sender;
      if from in pending && tx.nonce in pending[from].items {
        r := ReplaceTx(tx);
        return;
      }
      TrimsNothing(pending, pendingNonces.View());
      r := EnqueueTx(tx, {});
      assert {} - {tx} == {};
      if r.Added? && local {
        locals := locals + {from};
      }
    }

    /** At most one transaction holds an account's nonce, in the pending list or else in the queue. */
    lemma OneHolder(tx: Tx)
      requires Valid()
      ensures Holders(all.all, tx) == AsSet(if tx.nonce in Items(pending, tx.sender) then Prior(pending, tx) else Prior(queue, tx))
    {
      hide Consistent, Covers;
      PriorFits(pending, queue, all.all, tx);
      PriorPooled(pending, queue, all.all, tx);
      forall t | t in Holders(all.all, tx)
        ensures t in AsSet(if tx.nonce in Items(pending, tx.sender) then Prior(pending, tx) else Prior(queue, tx)) {
        NonceTells(pending, queue, all.all, t);
      }
    }

    /** Replaces the pending transaction with the same nonce if the new one pays enough more. */
    method ReplaceTx(tx: Tx) returns (r: Outcome)
      requires Valid() && tx !in all.all && tx.nonce in Items(pending, tx.sender) && Validated(tx)
      modifies this`pending, this`beats, all, priced
      ensures Valid() && pending - {tx.sender} == old(pending) - {tx.sender}
      ensures var prior := Prior(old(pending), tx);
              if ListState.Replaces(tx, prior.value, config.priceBump) then
                && r == Added(true) && all.all == old(all.all) - AsSet(prior) + {tx}
                && Items(pending, tx.sender) == Items(old(pending), tx.sender)[tx.nonce := tx]
                && beats == Beat(old(beats), tx.sender)
              else
                r == Rejected(ReplaceUnderpriced) && pending == old(pending) && all.all == old(all.all) && beats == old(beats)
      ensures SameKeys(old(pending), pending)
      ensures forall b :: old(SteadyAt(b)) ==> SteadyAt(b)
    {
      hide Consistent, Covers, Contiguous, Payable, Slots, ListState.Replaces;
      var from := tx.sender;
      var add := pending[from].Add(tx, config.priceBump);
      if !add.inserted {
        return Rejected(ReplaceUnderpriced);
      }
      ReplacePending(pending, queue, all.all, tx, config.priceBump);
      pending := pending[from := add.list];
      Admit(tx, add.replaced);
      beats := beats[from := clock];
      ItemsFrame(old(pending), pending, from);
      if old(SteadyAt(from)) {
        SameNonces(Items(old(pending), from), tx, state.nonce(from), pendingNonces.Nonce(from));
        PayablePut(Items(old(pending), from), tx, state.balance(from), state.maxGas);
      }
      r := Added(true);
    }

    method IsUnderpriced(tx: Tx) returns (cheap: bool)
      requires Valid()
      modifies priced
      ensures Valid() && priced.items == if tx.sender in locals then old(priced.items) else AfterStale(old(priced.items), all.all)
      ensures cheap <==> Cheap(tx, all.all, locals)
    {
      hide Consistent, Covers;
      cheap := priced.Underpriced(tx, locals);
    }

    /** If the pool is full, turns away an underpriced transaction or discards cheaper ones for it. */
    method EnsureRoom(tx: Tx, local: bool) returns (err: Option<Error>)
      requires Valid() && tx !in all.all
      modifies this`pending, this`queue, this`beats, all, priced, pendingNonces
      ensures Valid() && all.all <= old(all.all) && OnlyCheapRemotesLeft(old(all.all), all.all, tx, locals)
      ensures err == if TurnedAway(config, old(Held()), tx, local) then Some(Underpriced)
                     else if Unallocatable(config, old(Held()), tx, local) then Some(AllocationFailed) else None
      ensures err.Some? ==> all.all == old(all.all)
      ensures err == None ==>
                && all.all == old(all.all) - Discards(config, old(Held()), tx, local)
                && Prunes(old(pending), pending, Discards(config, old(Held()), tx, local))
      ensures err == None && Capacity(config) <= |old(all.all)| ==>
                (HasRoom(config, all.all, locals, tx) <==> RoomAhead(config, old(Held()), tx, local))
      ensures all.all == old(all.all) ==>
                && pending == old(pending) && queue == old(queue) && pendingNonces.View() == old(pendingNonces.View())
      ensures |old(all.all)| < Capacity(config) ==> priced.items == old(priced.items)
      ensures forall b :: old(SteadyAt(b)) ==> SteadyAt(b)
      ensures Trims(old(pending), old(pendingNonces.View()), pending, pendingNonces.View())
    {
      hide Valid, Discarded, OnlyCheapRemotesLeft, SteadyAt, Cheap, Trims, Prunes, RoomIn, HasRoom, AfterStale, Enough, Candidates, Slots, NumSlots, Wanted;
      NothingLeft(all.all, tx, locals);
      TrimsNothing(pending, pendingNonces.View());
      PrunesNothing(pending);
      if |all.all| >= config.globalSlots + config.globalQueue {
        if !local {
          var cheap := IsUnderpriced(tx);
          if cheap {
            return Some(Underpriced);
          }
        }
        var drop := MakeRoom(tx);
        if drop == None {
          return Some(AllocationFailed);
        }
        DiscardLeft(old(all.all), drop.value, tx, locals);
        NoneDropped(old(all.all), drop.value, Wanted(HeapSeen(old(Held()), tx, local), SlotsNeeded(config, old(all.all), tx), locals), locals);
      }
      err := None;
    }

    /** Adds one transaction, with the outcome and the effect on the pool that the rules and the stock
        determine. A rejection changes nothing, unless the pool is full, holds remote transactions and
        refuses a replacement. */
    method Add(tx: Tx, local: bool) returns (r: Outcome)
      requires Valid() && tx.gas <= Intrinsic.MAX_UINT64
      modifies this`pending, this`queue, this`beats, this`locals, all, priced, pendingNonces
      ensures Valid() && Step(Rules(), old(Held()), tx, local, r, Held())
      ensures r.Rejected? ==> (all.all == old(all.all) <==> r != Rejected(ReplaceUnderpriced) || Spared(config, old(Held())))
      ensures r.Rejected? && all.all == old(all.all) ==>
                pending == old(pending) && queue == old(queue) && pendingNonces.View() == old(pendingNonces.View())
      ensures tx !in old(all.all) ==> (r.Added? <==> tx in all.all)
      ensures all.all <= old(all.all) + {tx}
      ensures |old(all.all)| < Capacity(config) ==>
                && (forall t :: t in old(all.all) && t !in all.all ==> t.sender == tx.sender && t.nonce == tx.nonce)
                && SameKeys(old(pending), pending) && pendingNonces.View() == old(pendingNonces.View())
      ensures OnlyCheapRemotesLeft(old(all.all), all.all, tx, old(locals))
      ensures Seats(old(pending), pending, GivenUp(old(Rules()), old(Held()), tx, local), tx, r.Added?)
      ensures forall b :: old(SteadyAt(b)) ==> SteadyAt(b)
      ensures Trims(old(pending), old(pendingNonces.View()), pending, pendingNonces.View())
    {
      hide Valid, Items, OnlyCheapRemotesLeft, SteadyAt, Intrinsic.ExactGas, Cheap, Trims, SameKeys, Seats,
           TurnedAway, Unallocatable, Discards, Placed, Spared, Covered, FirstBroken;
      TrimsNothing(pending, pendingNonces.View());
      SeatsSame(pending, tx);
      ValidCovered();
      ghost var terms, before := Rules(), Held();
      if tx in all.all {
        r := Rejected(AlreadyKnown);
      } else {
        var err := ValidateTx(tx, local);
        if err.Some? {
          r := Rejected(err.value);
        } else {
          r := AddValidated(tx, local);
        }
      }
      assert Judged(terms, before, tx, local, r, all.all);
      JudgedFacts(terms, before, tx, local, r, all.all);
      if r.Rejected? {
        RejectionIff(terms, before, tx, local, r, all.all);
      }
    }

    lemma ValidCovered()
      requires Valid()
      ensures Covered(Held())
    {
      hide Sound, Covers;
      assert Covers(all.all, priced.items, priced.stales);
    }

    /** Makes room for a validated new transaction, if need be, and inserts it. */
    method AddValidated(tx: Tx, local: bool) returns (r: Outcome)
      requires Valid() && tx !in all.all && Validated(tx)
      modifies this`pending, this`queue, this`beats, this`locals, all, priced, pendingNonces
      ensures Valid()
      ensures if TurnedAway(config, old(Held()), tx, local) then r == Rejected(Underpriced) && all.all == old(all.all)
              else if Unallocatable(config, old(Held()), tx, local) then r == Rejected(AllocationFailed) && all.all == old(all.all)
              else
                && Placed(config.priceBump, old(all.all) - Discards(config, old(Held()), tx, local), tx, r, all.all)
                && Seats(old(pending), pending, Discards(config, old(Held()), tx, local), tx, r.Added?)
      ensures r.Rejected? && all.all == old(all.all) ==>
                pending == old(pending) && queue == old(queue) && pendingNonces.View() == old(pendingNonces.View())
      ensures |old(all.all)| < Capacity(config) ==>
                && SameKeys(old(pending), pending) && pendingNonces.View() == old(pendingNonces.View())
                && (r == Added(false) ==> multiset(priced.items) == multiset(old(priced.items)) + multiset{tx})
      ensures old(locals) <= locals <= old(locals) + (if local && r.Added? then {tx.sender} else {})
      ensures local && r == Added(false) ==> tx.sender in locals
      ensures forall b :: old(SteadyAt(b)) ==> SteadyAt(b)
      ensures Trims(old(pending), old(pendingNonces.View()), pending, pendingNonces.View())
    {
      hide Valid, Items, Prior, ListState.Replaces, OnlyCheapRemotesLeft, SteadyAt, Cheap, Trims, SameKeys, TurnedAway, Unallocatable,
           HasRoom, RoomAhead, Discards, Placed, Slots, NumSlots, Prunes, Seats;
      NothingGone(config, Held(), tx, local);
      var err := EnsureRoom(tx, local);
      if err.Some? {
        TrimsNothing(pending, pendingNonces.View());
        return Rejected(err.value);
      }
      ghost var was, kept := pending, all.all;
      ghost var prior := if tx.nonce in Items(pending, tx.sender) then Prior(pending, tx) else Prior(queue, tx);
      OneHolder(tx);
      r := Insert(tx, local);
      PlacedBy(config.priceBump, kept, tx, prior, r, all.all);
      SeatsAfter(old(pending), was, pending, Discards(config, old(Held()), tx, local), tx, r.Added?);
      TrimsSame(old(pending), old(pendingNonces.View()), was, pending, pendingNonces.View());
    }

    /** Raises or lowers the price floor: exactly the remote transactions below it leave. */
    method SetGasPrice(price: nat)
      requires Valid()
      modifies this`gasPrice, this`pending, this`queue, this`beats, all, priced, pendingNonces
      ensures Valid() && gasPrice == price
      ensures all.all == set tx | tx in old(all.all) && (tx.sender in locals || price <= tx.price)
      ensures forall b :: old(SteadyAt(b)) ==> SteadyAt(b)
      ensures Trims(old(pending), old(pendingNonces.View()), pending, pendingNonces.View())
      ensures Prunes(old(pending), pending, set tx | tx in old(all.all) && tx.sender !in locals && tx.price < price)
    {
      hide Sound, Covers, SteadyAt, Trims, Prunes;
      gasPrice := price;
      var drop := priced.Cap(price, locals);
      assert Elements(drop) == set tx | tx in all.all && tx.sender !in locals && tx.price < price;
      RemoveDropped(drop);
    }

    /** Removes one queued transaction; pending transactions and other accounts stay as they are. */
    method RemoveQueuedTx(a: Address, tx: Tx)
      requires Valid() && Holds(Items(queue, a), tx)
      modifies this`pending, this`queue, this`beats, all, priced, pendingNonces
      ensures Valid() && pending == old(pending)
      ensures queue - {a} == old(queue) - {a} && beats - {a} == old(beats) - {a}
      ensures Items(queue, a) == Items(old(queue), a) - {tx.nonce}
      ensures forall b :: old(SteadyAt(b)) ==> SteadyAt(b)
      ensures pendingNonces.View() == old(pendingNonces.View())
    {
      hide Consistent, Covers, SteadyAt;
      QueuedIsPooled(pending, queue, all.all, a, tx);
      RemoveTx(tx, true);
    }

    /** Removes all queued transactions of an account. */
    method ClearQueue(a: Address)
      requires Valid()
      modifies this`pending, this`queue, this`beats, all, priced, pendingNonces
      ensures Valid() && pending == old(pending)
      ensures queue == old(queue) - {a} && beats - {a} == old(beats) - {a}
      ensures forall b :: old(SteadyAt(b)) ==> SteadyAt(b)
      ensures pendingNonces.View() == old(pendingNonces.View())
    {
      hide Consistent, Covers, SteadyAt, Items, Holds, Keyed, Sorted;
      QueueKeyed(pending, queue, all.all, a);
      var txs := Sorted(Items(queue, a));
      assert txs == txs[0..];
      for i := 0 to |txs|
        invariant Valid() && pending == old(pending)
        invariant queue - {a} == old(queue) - {a} && beats - {a} == old(beats) - {a}
        invariant Keyed(Items(queue, a)) && Sorted(Items(queue, a)) == txs[i..]
        invariant forall b :: old(SteadyAt(b)) ==> SteadyAt(b)
        invariant pendingNonces.View() == old(pendingNonces.View())
      {
        SortedHead(Items(queue, a));
        assert txs[i..][1..] == txs[i + 1..];
        RemoveQueuedTx(a, txs[i]);
        QueueKeyed(pending, queue, all.all, a);
      }
      EmptyIsGone(pending, queue, all.all, a);
    }

    /** Removes the drop highest nonces of an account's queue. */
    method TrimQueue(a: Address, drop: nat)
      requires Valid() && drop <= Count(Items(queue, a))
      modifies this`pending, this`queue, this`beats, all, priced, pendingNonces
      ensures Valid() && pending == old(pending)
      ensures queue - {a} == old(queue) - {a} && beats - {a} == old(beats) - {a}
      ensures Items(queue, a) == Lowest(Items(old(queue), a), Count(Items(old(queue), a)) - drop)
      ensures forall b :: old(SteadyAt(b)) ==> SteadyAt(b)
      ensures pendingNonces.View() == old(pendingNonces.View())
    {
      hide Consistent, Covers, SteadyAt, Items, Holds, Keyed, Sorted, Count, Lowest;
      QueueKeyed(pending, queue, all.all, a);
      ghost var items := Items(queue, a);
      var txs := Sorted(Items(queue, a));
      WholeQueue(items);
      var i := |txs|;
      while |txs| - i < drop
        invariant |txs| - drop <= i <= |txs| == Count(items)
        invariant Valid() && pending == old(pending)
        invariant queue - {a} == old(queue) - {a} && beats - {a} == old(beats) - {a}
        invariant Items(queue, a) == Lowest(items, i)
        invariant forall b :: old(SteadyAt(b)) ==> SteadyAt(b)
        invariant pendingNonces.View() == old(pendingNonces.View())
        decreases i
      {
        i := i - 1;
        LastOfLowest(items, i);
        RemoveQueuedTx(a, txs[i]);
      }
    }

    /** Moves a floating transaction into the pending list. The branches for a better or a replaced
        older transaction never run: its nonce is free. */
    method PromoteTx(tx: Tx, ghost floating: set<Tx>) returns (promoted: bool)
      requires Sound(floating) && tx in floating
      modifies this`pending, this`beats, pendingNonces
      ensures promoted && Sound(floating - {tx})
      ensures pending - {tx.sender} == old(pending) - {tx.sender} && beats == Beat(old(beats), tx.sender)
      ensures Items(pending, tx.sender) == Items(old(pending), tx.sender)[tx.nonce := tx]
      ensures forall b :: pendingNonces.Nonce(b) == if b == tx.sender then tx.nonce + 1 else old(pendingNonces.Nonce(b))
    {
      hide Consistent, Items;
      var addr := tx.sender;
      PromoteFloating(pending, queue, all.all, floating, tx, config.priceBump);
      var add := ListOf(pending, addr, true).Add(tx, config.priceBump);
      if !add.inserted || add.replaced.Some? || tx !in all.all {
        assert false;
      }
      pending := pending[addr := add.list];
      pendingNonces.Set(addr, tx.nonce + 1);
      beats := beats[addr := clock];
      promoted := true;
    }

    /** Promotes the ready transactions of an account in nonce order. */
    method PromoteAll(a: Address, readies: NonceMap)
      requires Sound(Txs(readies)) && Keyed(readies) && forall n :: n in readies ==> readies[n].sender == a
      modifies this`pending, this`beats, pendingNonces
      ensures Sound({})
      ensures pending - {a} == old(pending) - {a} && beats == if readies == map[] then old(beats) else Beat(old(beats), a)
      ensures Items(pending, a) == Items(old(pending), a) + readies
      ensures forall b :: pendingNonces.Nonce(b) == if b == a && readies != map[] then Max(readies.Keys) + 1
                                                    else old(pendingNonces.Nonce(b))
    {
      hide *;
      var txs := Sorted(readies);
      ghost var todo, next := readies, pendingNonces.Nonce(a);
      assert txs[0..] == txs;
      AllOrNone(Txs(readies), readies, Items(pending, a));
      SortedEmpty(readies);
      if readies != map[] {
        SortedLast(readies);
      }
      for i := 0 to |txs|
        invariant Part(todo, readies) && Sorted(todo) == txs[i..]
        invariant Sound(StillFloating(Txs(readies), readies, todo))
        invariant pending - {a} == old(pending) - {a} && beats == if i == 0 then old(beats) else Beat(old(beats), a)
        invariant Items(pending, a) == Items(old(pending), a) + Done(readies, todo)
        invariant forall b :: pendingNonces.Nonce(b) == if b == a then next else old(pendingNonces.Nonce(b))
        invariant next == if i > 0 then txs[i - 1].nonce + 1 else old(pendingNonces.Nonce(a))
      {
        var tx := txs[i];
        FloatingStep(Txs(readies), readies, todo);
        MergeOne(Items(old(pending), a), Done(readies, todo), tx.nonce, tx);
        assert txs[i..][1..] == txs[i + 1..];
        assert tx.sender == a;
        BeatTwice(old(beats), a);
        var ok := PromoteTx(tx, StillFloating(Txs(readies), readies, todo));
        todo := todo - {tx.nonce};
        next := tx.nonce + 1;
      }
      SortedEmpty(todo);
      assert Txs(readies) - Txs(readies) == {};
    }

    function Limit(a: Address): Option<nat>
      reads this`locals
    {
      if a in locals then None else Some(config.accountQueue)
    }

    /** What promotion makes of a queued list of account a. */
    function PromotionOf(l: ListState, a: Address, expected: nat): Promoted
      reads this`state, this`locals
    {
      Promote(l, state.nonce(a), state.balance(a), state.maxGas, expected, Limit(a))
    }

    /** Drops two batches of transactions from the lookup; the price heap has yet to hear of it. */
    method Purge(olds: NonceMap, drops: NonceMap)
      requires all.Valid() && priced.all == all && priced.Valid()
      requires Keyed(olds) && Txs(olds) <= all.all && Keyed(drops) && Txs(drops) <= all.all - Txs(olds)
      modifies all
      ensures all.Valid() && all.all == old(all.all) - Txs(olds) - Txs(drops)
      ensures Covers(all.all, priced.items, priced.stales + (Count(olds) + Count(drops)))
    {
      hide Covers, Txs, Count, Keyed, Slots;
      CoversFewerMaps(all.all, olds, drops, priced.items, priced.stales);
      RemoveAll(olds);
      RemoveAll(drops);
    }

    /** Drops outdated and unpayable transactions from a queue and takes the ready ones out. */
    method SplitQueue(a: Address) returns (list: ListState, readies: NonceMap, gone: nat)
      requires Valid() && a in queue
      modifies this`queue, all, pendingNonces
      ensures Sound(Txs(readies)) && Covers(all.all, priced.items, priced.stales + gone)
      ensures var pr := PromotionOf(old(queue)[a], a, old(pendingNonces.Nonce(a))); list == pr.rest && readies == pr.readies
      ensures queue - {a} == old(queue) - {a} && Items(queue, a) == list.items
      ensures if list.items == map[] then a !in queue else a in queue && queue[a] == list
      ensures Keyed(readies) && forall n :: n in readies ==> readies[n].sender == a
      ensures forall b :: pendingNonces.Nonce(b) == old(pendingNonces.Nonce(b))
    {
      hide Consistent, Covers, Items, Store, Keyed, Txs, Count, Below, Ready, Promote, Slots,
           ListState.Forward, ListState.Filter, ListState.TakeReady;
      var expected := pendingNonces.Get(a);
      SplitFacts(pending, queue, all.all, a, state.nonce(a), state.balance(a), state.maxGas, expected, Limit(a));
      list := queue[a];
      var forwards := Below(list.items, state.nonce(a));
      list := list.Forward(state.nonce(a));
      var r := list.Filter(state.balance(a), state.maxGas);
      list := r.list;
      Purge(forwards, r.removed);
      readies := Ready(list.items, expected);
      list := list.TakeReady(expected);
      queue := Store(queue, a, list);
      gone := Count(forwards) + Count(r.removed);
    }

    /** Cuts the queue of a remote account down to its limit. */
    method CapQueue(a: Address, ghost owed: nat) returns (gone: nat)
      requires Sound({}) && priced.all == all && Covers(all.all, priced.items, priced.stales + owed)
      modifies this`queue, all
      ensures Sound({}) && Covers(all.all, priced.items, priced.stales + (owed + gone))
      ensures queue - {a} == old(queue) - {a}
      ensures Items(queue, a) == if a in locals then Items(old(queue), a) else Lowest(Items(old(queue), a), config.accountQueue)
    {
      hide Consistent, Covers, Items, Store, Keyed, Txs, Count, Slots, Lowest, Gone;
      ItemsAbsent(queue, a, config.accountQueue);
      gone := 0;
      if a !in locals && a in queue {
        CapFacts(pending, queue, all.all, a, config.accountQueue);
        var list := queue[a].Cap(config.accountQueue);
        var caps := Gone(queue[a], list.items);
        CoversFewerMap(all.all, caps, priced.items, priced.stales + owed);
        RemoveAll(caps);
        queue := Store(queue, a, list);
        gone := Count(caps);
      }
    }

    /** Promotes what is executable in the queue of one account. */
    method PromoteAccount(a: Address)
      requires Valid()
      modifies this`pending, this`queue, this`beats, all, priced, pendingNonces
      ensures Valid()
      ensures pending - {a} == old(pending) - {a} && queue - {a} == old(queue) - {a} && beats - {a} == old(beats) - {a}
      ensures var pr := PromotionOf(ListOf(old(queue), a, false), a, old(pendingNonces.Nonce(a)));
              && Items(pending, a) == Items(old(pending), a) + pr.readies
              && Items(queue, a) == pr.list.items
              && (var beaten := if pr.readies == map[] then old(beats) else Beat(old(beats), a);
                  beats == if a in queue || a !in old(queue) then beaten else beaten - {a})
              && forall b :: pendingNonces.Nonce(b) == if b == a && pr.readies != map[] then Max(pr.readies.Keys) + 1
                                                       else old(pendingNonces.Nonce(b))
    {
      hide Consistent, Covers, Items, Keyed, Txs, Slots, Lowest, Promote, Count;
      PromoteAbsent(queue, a, state.nonce(a), state.balance(a), state.maxGas, pendingNonces.Nonce(a), Limit(a), Items(pending, a));
      PromoteListItems(ListOf(queue, a, false), state.nonce(a), state.balance(a), state.maxGas, pendingNonces.Nonce(a), Limit(a));
      if a !in queue {
        return;
      }
      BeatTwice(beats, a);
      var list, readies, gone := SplitQueue(a);
      PromoteAll(a, readies);
      CapAndReport(a, gone);
    }

    /** Cuts a queue to its limit and tells the price heap of all that has left. */
    method CapAndReport(a: Address, gone: nat)
      requires Sound({}) && priced.all == all && Covers(all.all, priced.items, priced.stales + gone)
      modifies this`queue, this`beats, all, priced
      ensures Valid() && queue - {a} == old(queue) - {a} && beats == if a in queue then old(beats) else old(beats) - {a}
      ensures Items(queue, a) == if a in locals then Items(old(queue), a) else Lowest(Items(old(queue), a), config.accountQueue)
    {
      hide Consistent, Covers, Items, Keyed, Txs, Slots, Lowest, Count;
      var more := CapQueue(a, gone);
      priced.Removed(gone + more);
      if a !in queue {
        beats := beats - {a};
      }
    }

    /** How promotion changes the pending and queued transactions and the virtual nonce of account b. */
    ghost predicate PromotedAt(b: Address, p0: Lists, q0: Lists, n0: nat)
      reads this, pendingNonces
    {
      Promotes(PromotionOf(ListOf(q0, b, false), b, n0), Items(p0, b), n0, Items(pending, b), Items(queue, b), pendingNonces.Nonce(b))
    }

    ghost predicate SameAt(b: Address, p0: Lists, q0: Lists, n0: nat)
      reads this, pendingNonces
    {
      && Items(pending, b) == Items(p0, b) && Items(queue, b) == Items(q0, b)
      && ListOf(queue, b, false) == ListOf(q0, b, false) && pendingNonces.Nonce(b) == n0
    }

    method PromoteOne(a: Address)
      requires Valid()
      modifies this`pending, this`queue, this`beats, all, priced, pendingNonces
      ensures Valid() && PromotedAt(a, old(pending), old(queue), old(pendingNonces.Nonce(a)))
      ensures forall b :: b != a ==> SameAt(b, old(pending), old(queue), old(pendingNonces.Nonce(b)))
      ensures forall b :: old(SteadyAt(b)) ==> SteadyAt(b)
    {
      hide Valid, Items, ListOf, Promote, Contiguous, Payable;
      if SteadyAt(a) {
        SteadyAfter(a);
      }
      PromoteAccount(a);
      ListFrame(old(queue), queue, a);
      ListFrame(old(pending), pending, a);
    }

    lemma SteadyAfter(a: Address)
      requires Valid() && SteadyAt(a)
      ensures var ready := PromotionOf(ListOf(queue, a, false), a, pendingNonces.Nonce(a)).readies;
              && Contiguous(Items(pending, a) + ready, state.nonce(a),
                   if ready == map[] then pendingNonces.Nonce(a) else Max(ready.Keys) + 1)
              && Payable(Items(pending, a) + ready, state.balance(a), state.maxGas)
    {
      hide Consistent, Covers, Contiguous, Payable, Promote;
      AccountPayable(pending, queue, all.all, a, state.nonce(a), state.balance(a), state.maxGas, pendingNonces.Nonce(a), Limit(a));
      AccountContiguity(pending, queue, all.all, a, state.nonce(a), state.balance(a), state.maxGas, pendingNonces.Nonce(a), Limit(a));
    }

    /** Promotes the given accounts: each changes as promotion says, all others stay the same. */
    method PromoteExecutables(accounts: seq<Address>)
      requires Valid() && forall i, j :: 0 <= i < j < |accounts| ==> accounts[i] != accounts[j]
      modifies this`pending, this`queue, this`beats, all, priced, pendingNonces
      ensures Valid() && all.all <= old(all.all)
      ensures forall b :: b in accounts ==> PromotedAt(b, old(pending), old(queue), old(pendingNonces.Nonce(b)))
      ensures forall b :: b !in accounts ==> SameAt(b, old(pending), old(queue), old(pendingNonces.Nonce(b)))
      ensures forall b :: (old(SteadyAt(b)) ==> SteadyAt(b)) && (old(LaggingAt(b)) ==> LaggingAt(b))
    {
      hide Valid, Items, ListOf, PromotionOf, SteadyAt, Promotes, Consistent, ListsOk, Fewer;
      QueuesOk();
      ValidFacts();
      for i := 0 to |accounts|
        invariant Valid()
        invariant forall b :: b in accounts[..i] ==> PromotedAt(b, old(pending), old(queue), old(pendingNonces.Nonce(b)))
        invariant forall b :: b !in accounts[..i] ==> SameAt(b, old(pending), old(queue), old(pendingNonces.Nonce(b)))
        invariant forall b :: old(SteadyAt(b)) ==> SteadyAt(b)
      {
        var a := accounts[i];
        assert a !in accounts[..i];
        assert accounts[..i + 1] == accounts[..i] + [a];
        PromoteOne(a);
      }
      assert accounts[..|accounts|] == accounts;
      forall b | old(LaggingAt(b)) ensures LaggingAt(b) {
        StillLagging(b, old(pending), old(queue), old(pendingNonces.Nonce(b)), b in accounts);
      }
      forall b ensures Fewer(Items(old(pending), b), Items(old(queue), b), Items(pending, b), Items(queue, b)) {
        PromotedFewer(b, old(pending), old(queue), old(pendingNonces.Nonce(b)), b in accounts);
      }
      ValidFacts();
      FewerPooled(old(pending), old(queue), old(all.all), pending, queue, all.all);
    }

    lemma PromotedFewer(b: Address, p0: Lists, q0: Lists, n0: nat, promoted: bool)
      requires if promoted then PromotedAt(b, p0, q0, n0) else SameAt(b, p0, q0, n0)
      requires ListOf(q0, b, false).Valid() && !ListOf(q0, b, false).strict
      ensures Fewer(Items(p0, b), Items(q0, b), Items(pending, b), Items(queue, b))
    {
      hide Promote, ListState.Valid;
      if promoted {
        assert ListOf(q0, b, false).items == Items(q0, b);
        PromoteFewer(Items(p0, b), ListOf(q0, b, false), state.nonce(b), state.balance(b), state.maxGas, n0, Limit(b));
      }
    }

    /** Nothing is promoted for an account whose virtual nonce lags behind. */
    lemma StillLagging(b: Address, p0: Lists, q0: Lists, n0: nat, promoted: bool)
      requires if promoted then PromotedAt(b, p0, q0, n0) else SameAt(b, p0, q0, n0)
      requires ListOf(q0, b, false).Valid() && !ListOf(q0, b, false).strict && Items(p0, b) == map[] && n0 < state.nonce(b)
      ensures LaggingAt(b)
    {
      hide ListOf, Promote;
      PromoteBehind(ListOf(q0, b, false), state.nonce(b), state.balance(b), state.maxGas, n0, Limit(b));
    }

    lemma QueuesOk()
      requires Valid()
      ensures forall b :: ListOf(queue, b, false).Valid() && !ListOf(queue, b, false).strict
    {
      hide Covers;
    }

    /** Demotes what is no longer executable in the pending list of one account. */
    method DemoteAccount(a: Address)
      requires Valid() && a in pending
      modifies this`pending, this`queue, this`beats, all, priced
      ensures Valid()
      ensures pending - {a} == old(pending) - {a} && queue - {a} == old(queue) - {a} && beats - {a} == old(beats) - {a}
      ensures var dm := Demote(old(pending)[a], state.nonce(a), state.balance(a), state.maxGas);
              && Items(pending, a) == dm.list.items
              && Items(queue, a) == Items(old(queue), a) + dm.invalids + dm.gapped
              && beats == if dm.invalids == map[] && dm.gapped == map[] then old(beats) else FirstBeat(old(beats), a)
    {
      hide Consistent, Covers, Items, Store, Slots, ListState.Forward, ListState.Filter, ListState.Cap;
      BeatTwice(beats, a);
      var rest := SendBack(a);
      if Gapped(rest.items, state.nonce(a)) {
        ReturnAll(a);
      }
    }

    /** Drops the outdated and unpayable transactions of a pending list, and sends those above an
        unpayable one back to the queue. */
    method SendBack(a: Address) returns (rest: ListState)
      requires Valid() && a in pending
      modifies this`pending, this`queue, this`beats, all, priced
      ensures Valid()
      ensures pending - {a} == old(pending) - {a} && queue - {a} == old(queue) - {a}
      ensures var dm := Demote(old(pending)[a], state.nonce(a), state.balance(a), state.maxGas);
              && rest == dm.rest && Items(pending, a) == rest.items && (rest.items != map[] ==> a in pending && pending[a] == rest)
              && Items(queue, a) == Items(old(queue), a) + dm.invalids
              && beats == if dm.invalids == map[] then old(beats) else FirstBeat(old(beats), a)
    {
      hide Consistent, Covers, Items, Store, Keyed, Txs, Count, Slots, Below, Lowest, FirstBeat,
           ListState.Forward, ListState.Filter, ListState.Cap;
      var nonce := state.nonce(a);
      DemoteFacts(pending, queue, all.all, a, nonce, state.balance(a), state.maxGas);
      var list := pending[a];
      var olds := Below(list.items, nonce);
      var r := list.Forward(nonce).Filter(state.balance(a), state.maxGas);
      Purge(olds, r.removed);
      priced.Removed(Count(olds) + Count(r.removed));
      pending := Store(pending, a, r.list);
      EnqueueAll(a, r.invalids, Txs(r.invalids));
      assert Txs(r.invalids) - Txs(r.invalids) == {};
      rest := r.list;
    }

    /** Sends a whole pending list back to the queue. */
    method ReturnAll(a: Address)
      requires Valid() && a in pending && pending[a].items != map[]
      modifies this`pending, this`queue, this`beats, all, priced
      ensures Valid() && priced.items == old(priced.items) && priced.stales == old(priced.stales) && all.all == old(all.all)
      ensures pending - {a} == old(pending) - {a} && queue - {a} == old(queue) - {a}
      ensures Items(pending, a) == old(pending)[a].Cap(0).items && Items(queue, a) == Items(old(queue), a) + old(pending)[a].items
      ensures beats == FirstBeat(old(beats), a)
    {
      hide Consistent, Covers, Items, Store, Keyed, Txs, Slots, ListState.Cap;
      GapFacts(pending, queue, all.all, a);
      var list := pending[a];
      pending := Store(pending, a, list.Cap(0));
      EnqueueAll(a, list.items, Txs(list.items));
      assert Txs(list.items) - Txs(list.items) == {};
    }

    /** Brings the queued total down to the global limit: remote accounts are emptied, the most
        recently active first, and the last one loses only its highest nonces. */
    method TruncateQueue()
      requires Valid()
      modifies this`pending, this`queue, this`beats, all, priced, pendingNonces
      ensures Valid() && pending == old(pending)
      ensures Total(old(queue)) <= config.globalQueue ==> queue == old(queue)
      ensures Total(old(queue)) > config.globalQueue ==>
                Total(queue) == config.globalQueue || (Total(queue) > config.globalQueue && forall b :: b in queue ==> b in locals)
      ensures old(queue).Keys <= old(beats).Keys && Evicted(old(queue), queue, locals, old(beats))
      ensures forall b :: old(SteadyAt(b)) ==> SteadyAt(b)
      ensures pendingNonces.View() == old(pendingNonces.View())
    {
      hide Consistent, Covers, SteadyAt, Items, Total, Count, Evicting, Evicted, Latest, KeepsLowest;
      EvictStart(queue, locals, beats);
      EvictDone(queue, queue, queue.Keys - locals, locals, beats, None);
      var queued := TotalOf(queue);
      if queued <= config.globalQueue {
        return;
      }
      var stamps := beats;
      var addresses := queue.Keys - locals;
      var drop := queued - config.globalQueue;
      ghost var cut: Option<Address> := None;
      while drop > 0 && addresses != {}
        invariant Valid() && pending == old(pending) && addresses <= stamps.Keys
        invariant Total(queue) == config.globalQueue + drop && drop >= 0
        invariant Evicting(old(queue), queue, addresses, locals, stamps, cut) && (cut.Some? ==> drop == 0)
        invariant forall b :: old(SteadyAt(b)) ==> SteadyAt(b)
        invariant pendingNonces.View() == old(pendingNonces.View())
        decreases addresses
      {
        LatestExists(addresses, stamps);
        var a :| a in addresses && Latest(a, addresses, stamps);
        drop := EvictOne(a, drop, old(queue), addresses, stamps);
        addresses := addresses - {a};
        cut := if a in queue then Some(a) else None;
      }
      EvictDone(old(queue), queue, addresses, locals, stamps, cut);
    }

    /** Evicts one remote account, or as much of its queue as is still too much. */
    method EvictOne(a: Address, drop: nat, ghost q0: Lists, ghost addresses: set<Address>, ghost stamps: map<Address, int>)
      returns (left: nat)
      requires Valid() && drop > 0 && a in addresses && addresses <= stamps.Keys && Latest(a, addresses, stamps)
      requires Evicting(q0, queue, addresses, locals, stamps, None)
      modifies this`pending, this`queue, this`beats, all, priced, pendingNonces
      ensures Valid() && pending == old(pending)
      ensures Total(queue) + drop == Total(old(queue)) + left
      ensures Evicting(q0, queue, addresses - {a}, locals, stamps, if a in queue then Some(a) else None)
      ensures a in queue ==> left == 0
      ensures forall b :: old(SteadyAt(b)) ==> SteadyAt(b)
      ensures pendingNonces.View() == old(pendingNonces.View())
    {
      hide Consistent, Covers, SteadyAt, Items, Total, Evicting, Latest, KeepsLowest, Lowest, Count;
      EvictQueued(q0, queue, addresses, locals, stamps, a);
      var items := queue[a].items;
      var size := Count(items);
      if size <= drop {
        ClearQueue(a);
        left := drop - size;
        NoItems(queue, a);
        KeepsNone(items);
      } else {
        TrimQueue(a, drop);
        left := 0;
        TrimKeeps(queue, a, items, size - drop);
      }
      TotalChange(old(queue), queue, a);
      EvictPick(q0, old(queue), queue, addresses, locals, stamps, a, a !in queue);
    }

    /** Drops the highest pending nonce of an account from the pool. */
    method DropTop(a: Address)
      requires Valid() && a in pending && 1 < Count(pending[a].items)
      modifies this`pending, all, priced, pendingNonces
      ensures Valid() && a in pending && pending - {a} == old(pending) - {a}
      ensures pending[a].items == Lowest(old(pending)[a].items, Count(old(pending)[a].items) - 1)
      ensures forall b :: old(SteadyAt(b)) ==> SteadyAt(b)
      ensures Trims(old(pending), old(pendingNonces.View()), pending, pendingNonces.View())
    {
      hide Valid, Contiguous, Payable, Lowest, Count, Below, Trims;
      ghost var items := pending[a].items;
      TopIsTail(items);
      CutTop(a);
      ItemsFrame(old(pending), pending, a);
      forall b ensures pendingNonces.View().At(b) == pendingNonces.Nonce(b) && old(pendingNonces.View()).At(b) == old(pendingNonces.Nonce(b)) {}
      TrimOne(old(pending), old(pendingNonces.View()), pending, pendingNonces.View(), a, Max(items.Keys));
      if old(SteadyAt(a)) {
        TopContiguous(items, state.nonce(a), old(pendingNonces.Nonce(a)));
        PayableLowest(items, Count(items) - 1, state.balance(a), state.maxGas);
      }
    }

    /** Takes the highest pending nonce of an account out of all structures. */
    method CutTop(a: Address)
      requires Valid() && a in pending && 1 < Count(pending[a].items)
      modifies this`pending, all, priced, pendingNonces
      ensures Valid() && a in pending && pending - {a} == old(pending) - {a} && old(pending)[a].items != map[]
      ensures pending[a].items == Lowest(old(pending)[a].items, Count(old(pending)[a].items) - 1)
      ensures var top := Max(old(pending)[a].items.Keys);
              forall b :: pendingNonces.Nonce(b) == if b == a && top < old(pendingNonces.Nonce(b)) then top else old(pendingNonces.Nonce(b))
    {
      hide Consistent, Covers, Lowest, Count, Slots, ListState.Cap;
      TopFacts(pending, queue, all.all, a);
      var list := pending[a];
      var tx := list.items[Max(list.items.Keys)];
      CoversFewer(all.all, {tx}, priced.items, priced.stales);
      pending := pending[a := list.Cap(Count(list.items) - 1)];
      all.Remove(tx);
      pendingNonces.SetIfLower(a, tx.nonce);
      priced.Removed(1);
    }

    /** One round of fairness: every offender, all of them level long, loses its highest nonce. */
    method LowerAll(offenders: seq<Address>, count: nat, ghost p0: Lists, ghost level: nat) returns (left: nat)
      requires Valid() && CutAt(p0, pending, locals, level) && 1 < level && count == Total(pending)
      requires forall a :: a in offenders ==> a in p0 && a !in locals && level <= Count(p0[a].items)
      requires forall i, j :: 0 <= i < j < |offenders| ==> offenders[i] != offenders[j]
      requires forall a :: a in p0 && a !in locals && level <= Count(p0[a].items) ==> a in offenders
      modifies this`pending, all, priced, pendingNonces
      ensures Valid() && CutAt(p0, pending, locals, level - 1) && left == Total(pending)
      ensures forall b :: old(SteadyAt(b)) ==> SteadyAt(b)
      ensures Trims(old(pending), old(pendingNonces.View()), pending, pendingNonces.View())
    {
      hide Valid, CutAt, Mixed, Lowest, Count, Total, Items, SteadyAt, Trims;
      TrimsNothing(pending, pendingNonces.View());
      left := count;
      RoundStart(p0, pending, locals, level);
      for i := 0 to |offenders|
        invariant Valid() && Mixed(p0, pending, locals, level, offenders[..i]) && left == Total(pending)
        invariant forall b :: old(SteadyAt(b)) ==> SteadyAt(b)
        invariant Trims(old(pending), old(pendingNonces.View()), pending, pendingNonces.View())
      {
        var o := offenders[i];
        assert offenders[..i + 1] == offenders[..i] + [o];
        assert o !in offenders[..i];
        ghost var before, nonces := pending, pendingNonces.View();
        MixedCount(p0, pending, locals, level, offenders[..i], o);
        DropTop(o);
        TrimsTwice(old(pending), old(pendingNonces.View()), before, nonces, pending, pendingNonces.View());
        RoundStep(p0, before, pending, locals, level, offenders[..i], o);
        OneFewer(before, pending, o, level);
        left := left - 1;
      }
      assert offenders[..|offenders|] == offenders;
      RoundDone(p0, pending, locals, level, offenders);
    }

    /** Brings the pending total down by cutting the longest remote lists to a common level. */
    method TruncatePending() returns (ghost level: nat)
      requires Valid()
      modifies this`pending, all, priced, pendingNonces
      ensures Valid() && Fair(old(pending), pending, locals, config.accountSlots, config.globalSlots, level)
      ensures forall b :: old(SteadyAt(b)) ==> SteadyAt(b)
      ensures Trims(old(pending), old(pendingNonces.View()), pending, pendingNonces.View())
    {
      hide Valid, Fair, Cutting, CutAt, Longest, Lowest, Count, Total, Items, SteadyAt, Trims;
      TrimsNothing(pending, pendingNonces.View());
      var count := TotalOf(pending);
      ghost var p0 := pending;
      var spammers := Spammers();
      CuttingStart(pending, locals, config.accountSlots, config.globalSlots, spammers);
      level := config.accountSlots + Total(pending);
      if count <= config.globalSlots {
        FairDone(p0, pending, locals, config.accountSlots, config.globalSlots, [], spammers, level);
        return;
      }
      var offenders: seq<Address> := [];
      while count > config.globalSlots && spammers != {}
        invariant Valid() && count == Total(pending) && (offenders == [] ==> pending == p0)
        invariant Cutting(p0, pending, locals, config.accountSlots, config.globalSlots, offenders, spammers, level)
        invariant forall b :: old(SteadyAt(b)) ==> SteadyAt(b)
        invariant Trims(old(pending), old(pendingNonces.View()), pending, pendingNonces.View())
        decreases spammers
      {
        var o := PopLongest(spammers, p0, offenders, level);
        if offenders == [] {
          CuttingFirst(p0, locals, config.accountSlots, config.globalSlots, spammers, level, o);
          level := Count(pending[o].items);
          assert offenders + [o] == [o];
        } else {
          ghost var was, nonces := pending, pendingNonces.View();
          count, level := LowerTo(o, count, offenders, p0, spammers, level);
          TrimsTwice(old(pending), old(pendingNonces.View()), was, nonces, pending, pendingNonces.View());
          if count <= config.globalSlots {
            FairDone(p0, pending, locals, config.accountSlots, config.globalSlots, offenders, spammers, level);
            return;
          }
          CuttingJoin(p0, pending, locals, config.accountSlots, config.globalSlots, offenders, spammers, level, o);
        }
        spammers, offenders := spammers - {o}, offenders + [o];
      }
      if count > config.globalSlots {
        if |offenders| > 0 {
          ghost var was, nonces := pending, pendingNonces.View();
          count, level := LowerToSlots(count, offenders, p0, level);
          TrimsTwice(old(pending), old(pendingNonces.View()), was, nonces, pending, pendingNonces.View());
          FairDone(p0, pending, locals, config.accountSlots, config.globalSlots, offenders, {}, level);
        } else {
          NobodyWaiting(p0, locals, config.accountSlots, config.globalSlots, level);
          FairNothing(p0, locals, config.accountSlots, config.globalSlots);
          level := config.accountSlots;
        }
      } else {
        FairDone(p0, pending, locals, config.accountSlots, config.globalSlots, offenders, spammers, level);
      }
    }

    /** The remote accounts with more pending transactions than they are guaranteed. */
    method Spammers() returns (s: set<Address>)
      ensures forall a :: a in s <==> a in pending && a !in locals && config.accountSlots < Count(pending[a].items)
    {
      s := set a | a in pending && a !in locals && config.accountSlots < Count(pending[a].items);
    }

    method PopLongest(waiting: set<Address>, ghost p0: Lists, ghost offenders: seq<Address>, ghost level: nat) returns (o: Address)
      requires waiting != {} && Cutting(p0, pending, locals, config.accountSlots, config.globalSlots, offenders, waiting, level)
      ensures o in waiting && Longest(o, waiting, p0) && Longest(o, waiting, pending)
      ensures o in pending && o in p0 && pending[o].items == p0[o].items
      ensures config.accountSlots < Count(p0[o].items) <= level
    {
      hide Cutting, Longest, Count;
      ghost var w :| w in waiting;
      WaitingUncut(p0, pending, locals, config.accountSlots, config.globalSlots, offenders, waiting, level, w);
      LongestExists(waiting, pending);
      o :| o in waiting && Longest(o, waiting, pending);
      WaitingUncut(p0, pending, locals, config.accountSlots, config.globalSlots, offenders, waiting, level, o);
    }

    /** One round of cuts: every offender loses its last transaction. */
    method LowerRound(count: nat, offenders: seq<Address>, ghost p0: Lists, ghost waiting: set<Address>, ghost level: nat, ghost last: Address)
      returns (left: nat)
      requires Valid() && count == Total(pending) > config.globalSlots && last in offenders
      requires Cutting(p0, pending, locals, config.accountSlots, config.globalSlots, offenders, waiting, level)
      requires config.accountSlots < level && forall a :: a in waiting ==> Count(p0[a].items) < level
      modifies this`pending, all, priced, pendingNonces
      ensures Valid() && left == Total(pending)
      ensures Cutting(p0, pending, locals, config.accountSlots, config.globalSlots, offenders, waiting, level - 1)
      ensures last in pending && Count(pending[last].items) == level - 1
      ensures forall b :: old(SteadyAt(b)) ==> SteadyAt(b)
      ensures Trims(old(pending), old(pendingNonces.View()), pending, pendingNonces.View())
    {
      hide Valid, Cutting, CutAt, Longest, Lowest, Count, Total, Items, SteadyAt, Trims;
      RoundReady(p0, pending, locals, config.accountSlots, config.globalSlots, offenders, waiting, level);
      left := LowerAll(offenders, count, p0, level);
      CuttingLower(p0, old(pending), pending, locals, config.accountSlots, config.globalSlots, offenders, waiting, level);
      PoppedCut(p0, pending, locals, config.accountSlots, config.globalSlots, offenders, waiting, level - 1, last);
    }

    /** Lowers the popped offenders until the limit holds or they are down to the next one's length. */
    method LowerTo(o: Address, count: nat, offenders: seq<Address>, ghost p0: Lists, ghost waiting: set<Address>, ghost level: nat)
      returns (left: nat, ghost level': nat)
      requires Valid() && count == Total(pending) && offenders != []
      requires Cutting(p0, pending, locals, config.accountSlots, config.globalSlots, offenders, waiting, level)
      requires o in waiting && Longest(o, waiting, p0) && o in pending && o in p0 && pending[o].items == p0[o].items
      requires config.accountSlots < Count(p0[o].items) <= level
      modifies this`pending, all, priced, pendingNonces
      ensures Valid() && left == Total(pending)
      ensures Cutting(p0, pending, locals, config.accountSlots, config.globalSlots, offenders, waiting, level')
      ensures left > config.globalSlots ==> level' == Count(p0[o].items)
      ensures forall b :: old(SteadyAt(b)) ==> SteadyAt(b)
      ensures Trims(old(pending), old(pendingNonces.View()), pending, pendingNonces.View())
    {
      hide Valid, Cutting, CutAt, Longest, Lowest, Count, Total, Items, SteadyAt, Trims;
      TrimsNothing(pending, pendingNonces.View());
      left, level' := count, level;
      var threshold := Count(pending[o].items);
      var last := offenders[|offenders| - 1];
      PoppedCut(p0, pending, locals, config.accountSlots, config.globalSlots, offenders, waiting, level', last);
      while left > config.globalSlots && Count(pending[last].items) > threshold
        invariant Valid() && left == Total(pending) && threshold <= level'
        invariant Cutting(p0, pending, locals, config.accountSlots, config.globalSlots, offenders, waiting, level')
        invariant last in pending && Count(pending[last].items) == level'
        invariant forall b :: old(SteadyAt(b)) ==> SteadyAt(b)
        invariant Trims(old(pending), old(pendingNonces.View()), pending, pendingNonces.View())
        decreases level'
      {
        ghost var before, nonces := pending, pendingNonces.View();
        LongestBelow(p0, waiting, o, level');
        left := LowerRound(left, offenders, p0, waiting, level', last);
        TrimsTwice(old(pending), old(pendingNonces.View()), before, nonces, pending, pendingNonces.View());
        level' := level' - 1;
      }
    }

    /** Lowers all offenders until the limit holds or only the guaranteed slots are left. */
    method LowerToSlots(count: nat, offenders: seq<Address>, ghost p0: Lists, ghost level: nat)
      returns (left: nat, ghost level': nat)
      requires Valid() && count == Total(pending) && offenders != []
      requires Cutting(p0, pending, locals, config.accountSlots, config.globalSlots, offenders, {}, level)
      modifies this`pending, all, priced, pendingNonces
      ensures Valid() && left == Total(pending)
      ensures Cutting(p0, pending, locals, config.accountSlots, config.globalSlots, offenders, {}, level')
      ensures left <= config.globalSlots || level' == config.accountSlots
      ensures forall b :: old(SteadyAt(b)) ==> SteadyAt(b)
      ensures Trims(old(pending), old(pendingNonces.View()), pending, pendingNonces.View())
    {
      hide Valid, Cutting, CutAt, Longest, Lowest, Count, Total, Items, SteadyAt, Trims;
      TrimsNothing(pending, pendingNonces.View());
      left, level' := count, level;
      var last := offenders[|offenders| - 1];
      PoppedCut(p0, pending, locals, config.accountSlots, config.globalSlots, offenders, {}, level', last);
      SlotsBelow(p0, pending, locals, config.accountSlots, config.globalSlots, offenders, {}, level');
      while left > config.globalSlots && Count(pending[last].items) > config.accountSlots
        invariant Valid() && left == Total(pending) && config.accountSlots <= level'
        invariant Cutting(p0, pending, locals, config.accountSlots, config.globalSlots, offenders, {}, level')
        invariant last in pending && Count(pending[last].items) == level'
        invariant forall b :: old(SteadyAt(b)) ==> SteadyAt(b)
        invariant Trims(old(pending), old(pendingNonces.View()), pending, pendingNonces.View())
        decreases level'
      {
        ghost var before, nonces := pending, pendingNonces.View();
        left := LowerRound(left, offenders, p0, {}, level', last);
        TrimsTwice(old(pending), old(pendingNonces.View()), before, nonces, pending, pendingNonces.View());
        level' := level' - 1;
      }
    }

    /** How demotion changes the pending and queued transactions of account b. */
    ghost predicate DemotedAt(b: Address, p0: Lists, q0: Lists)
      reads this
    {
      if b in p0 then
        var dm := Demote(p0[b], state.nonce(b), state.balance(b), state.maxGas);
        Items(pending, b) == dm.list.items && Items(queue, b) == Items(q0, b) + dm.invalids + dm.gapped
      else
        Items(pending, b) == map[] && Items(queue, b) == Items(q0, b)
    }

    ghost predicate ExecutableAt(b: Address)
      reads this
    {
      Executable(Items(pending, b), state.nonce(b), state.balance(b), state.maxGas)
    }

    lemma DemotedExecutable(b: Address, p0: Lists, q0: Lists)
      requires DemotedAt(b, p0, q0) && ListsOk(p0, true)
      ensures ExecutableAt(b)
    {
      hide Demote, Executable;
      if b in p0 {
        DemoteExecutable(p0[b], state.nonce(b), state.balance(b), state.maxGas);
      } else {
        NothingExecutable(state.nonce(b), state.balance(b), state.maxGas);
      }
    }

    /** Demotes every account's pending transactions that the current state no longer supports. */
    method DemoteUnexecutables()
      requires Valid()
      modifies this`pending, this`queue, this`beats, all, priced
      ensures Valid() && all.all <= old(all.all) && forall b :: DemotedAt(b, old(pending), old(queue))
      ensures forall b :: ExecutableAt(b)
      ensures forall b :: (old(SteadyAt(b)) ==> SteadyAt(b)) && (old(LaggingAt(b)) ==> LaggingAt(b))
    {
      hide Valid, Demote, ListOf, ListsOk, Consistent, Executable, Contiguous, Payable, DemotedAt, Fewer;
      ValidFacts();
      DemoteAll();
      forall b ensures Fewer(Items(old(pending), b), Items(old(queue), b), Items(pending, b), Items(queue, b)) {
        DemotedFewer(b, old(pending), old(queue));
      }
      ValidFacts();
      FewerPooled(old(pending), old(queue), old(all.all), pending, queue, all.all);
      forall b ensures ExecutableAt(b) && (old(SteadyAt(b)) ==> SteadyAt(b)) && (old(LaggingAt(b)) ==> LaggingAt(b)) {
        DemotedExecutable(b, old(pending), old(queue));
        DemotedSame(b, old(pending), old(queue), pendingNonces.Nonce(b));
      }
    }

    lemma DemotedFewer(b: Address, p0: Lists, q0: Lists)
      requires DemotedAt(b, p0, q0) && ListsOk(p0, true)
      ensures Fewer(Items(p0, b), Items(q0, b), Items(pending, b), Items(queue, b))
    {
      hide Demote;
      if b in p0 {
        DemoteFewer(p0[b], Items(q0, b), state.nonce(b), state.balance(b), state.maxGas);
      }
    }

    /** Demotes one account after the other. */
    method DemoteAll()
      requires Valid()
      modifies this`pending, this`queue, this`beats, all, priced
      ensures Valid() && forall b :: DemotedAt(b, old(pending), old(queue))
    {
      hide Valid, Demote, ListOf, ListsOk, Consistent, Executable;
      var todo := pending.Keys;
      while todo != {}
        invariant Valid() && todo <= old(pending).Keys && todo <= pending.Keys
        invariant forall b :: b in todo ==> pending[b] == old(pending)[b] && Items(queue, b) == Items(old(queue), b)
        invariant forall b :: b !in todo ==> DemotedAt(b, old(pending), old(queue))
        decreases todo
      {
        var a :| a in todo;
        DemoteNext(a, old(pending), old(queue), todo);
        todo := todo - {a};
      }
    }

    /** Demotes one account that is still to be demoted. */
    method DemoteNext(a: Address, ghost p0: Lists, ghost q0: Lists, ghost todo: set<Address>)
      requires Valid() && a in todo && todo <= p0.Keys && todo <= pending.Keys
      requires forall b :: b in todo ==> pending[b] == p0[b] && Items(queue, b) == Items(q0, b)
      requires forall b :: b !in todo ==> DemotedAt(b, p0, q0)
      modifies this`pending, this`queue, this`beats, all, priced
      ensures Valid() && todo - {a} <= pending.Keys
      ensures forall b :: b in todo - {a} ==> pending[b] == p0[b] && Items(queue, b) == Items(q0, b)
      ensures forall b :: b !in todo - {a} ==> DemotedAt(b, p0, q0)
    {
      hide Valid, Demote, ListOf, ListsOk, Consistent, Executable, Items, FirstBeat;
      DemoteAccount(a);
      ListFrame(old(pending), pending, a);
      ListFrame(old(queue), queue, a);
      SameElsewhere(old(pending), pending, a);
    }

    lemma DemotedSame(b: Address, p0: Lists, q0: Lists, hi: nat)
      requires DemotedAt(b, p0, q0) && ListsOk(p0, true)
      ensures Contiguous(Items(p0, b), state.nonce(b), hi) && Payable(Items(p0, b), state.balance(b), state.maxGas) ==>
                Items(pending, b) == Items(p0, b)
      ensures Items(p0, b) == map[] ==> Items(pending, b) == map[]
    {
      hide Demote, Contiguous, Payable;
      if b in p0 && Contiguous(p0[b].items, state.nonce(b), hi) && Payable(p0[b].items, state.balance(b), state.maxGas) {
        DemoteNothing(p0[b], state.nonce(b), hi, state.balance(b), state.maxGas);
      }
    }

    /** What promotion and then demotion make of account b's lists and virtual nonce. */
    ghost predicate RebuiltAt(b: Address, p0: Lists, q0: Lists, n0: nat, p: Lists, q: Lists)
      reads this`state, this`locals
    {
      Rebuilt(Items(p0, b), Items(q0, b), n0, Bar(state.nonce(b), state.balance(b), state.maxGas), Limit(b), Items(p, b), Items(q, b))
    }

    /** Promotes every account with something queued. */
    method PromoteQueued()
      requires Valid()
      modifies this`pending, this`queue, this`beats, all, priced, pendingNonces
      ensures Valid() && all.all <= old(all.all)
      ensures forall b :: PromotedTo(b, old(pending), old(queue), old(pendingNonces.Nonce(b)), pending, queue)
      ensures forall b :: old(PromotionOf(ListOf(queue, b, false), b, pendingNonces.Nonce(b)).readies) == map[] ==>
                pendingNonces.Nonce(b) == old(pendingNonces.Nonce(b))
      ensures forall b :: (old(SteadyAt(b)) ==> SteadyAt(b)) && (old(LaggingAt(b)) ==> LaggingAt(b))
    {
      hide Valid, Promote, Items, ListOf, SteadyAt, LaggingAt;
      var accounts := KeysOf(queue);
      PromoteExecutables(accounts);
      forall b
        ensures PromotedTo(b, old(pending), old(queue), old(pendingNonces.Nonce(b)), pending, queue)
        ensures old(PromotionOf(ListOf(queue, b, false), b, pendingNonces.Nonce(b)).readies) == map[] ==>
                  pendingNonces.Nonce(b) == old(pendingNonces.Nonce(b))
      {
        if b !in accounts {
          PromoteAbsent(old(queue), b, state.nonce(b), state.balance(b), state.maxGas, old(pendingNonces.Nonce(b)), Limit(b), Items(old(pending), b));
        }
      }
    }

    lemma RebuiltOne(b: Address, p0: Lists, q0: Lists, n0: nat, p1: Lists, q1: Lists)
      requires PromotedTo(b, p0, q0, n0, p1, q1) && DemotedAt(b, p1, q1) && ListsOk(p1, true)
      requires ListOf(q0, b, false).Valid() && !ListOf(q0, b, false).strict
      ensures RebuiltAt(b, p0, q0, n0, pending, queue)
    {
      hide Promote, Demote, ListState.Valid, Rebuilt;
      var bar := Bar(state.nonce(b), state.balance(b), state.maxGas);
      assert ListOf(q0, b, false).items == Items(q0, b);
      if b in p1 {
        RebuiltBy(Items(p0, b), ListOf(q0, b, false), n0, bar, Limit(b), p1[b]);
      } else {
        RebuiltNone(Items(p0, b), ListOf(q0, b, false), n0, bar, Limit(b));
      }
    }

    /** A new head's two passes: promote everything executable, then demote what is not. The pending
        nonces of an account come out without a gap exactly when the reset is safe for it. */
    method Rebuild()
      requires Valid() && forall b :: pendingNonces.Nonce(b) <= state.nonce(b)
      modifies this`pending, this`queue, this`beats, all, priced, pendingNonces
      ensures Valid() && all.all <= old(all.all)
      ensures forall b :: RebuiltAt(b, old(pending), old(queue), old(pendingNonces.Nonce(b)), pending, queue)
      ensures forall b :: ExecutableAt(b)
      ensures forall b, lo, hi :: Contiguous(Items(old(pending), b), lo, hi) ==>
                                    (Gapless(Items(pending, b), state.nonce(b)) <==>
                                     old(SafeAt(b, lo)))
      ensures forall b :: Items(pending, b) == map[] ==> pendingNonces.Nonce(b) == old(pendingNonces.Nonce(b))
      ensures forall b :: old(pendingNonces.Nonce(b)) < state.nonce(b) && (forall n :: n in Items(old(pending), b) ==> n < state.nonce(b)) ==>
                LaggingAt(b)
    {
      hide Valid, Contiguous, Gapless, Promote, Demote, Items, ListOf, ResetSafe, Consistent, ListsOk, Executable, RebuiltAt, SteadyAt;
      ValidFacts();
      QueuesOk();
      PromoteQueued();
      ghost var p1, q1 := pending, queue;
      ValidFacts();
      DemoteUnexecutables();
      forall b ensures RebuiltAt(b, old(pending), old(queue), old(pendingNonces.Nonce(b)), pending, queue) {
        RebuiltOne(b, old(pending), old(queue), old(pendingNonces.Nonce(b)), p1, q1);
      }
      forall b, lo, hi | Contiguous(Items(old(pending), b), lo, hi)
        ensures Gapless(Items(pending, b), state.nonce(b)) <==> old(SafeAt(b, lo)) {
        assert DemotedAt(b, p1, q1) && PromotedTo(b, old(pending), old(queue), old(pendingNonces.Nonce(b)), p1, q1);
        RebuiltGap(old(pending), old(queue), old(all.all), p1, b, lo, hi, state.nonce(b), state.balance(b), state.maxGas,
          old(pendingNonces.Nonce(b)), Limit(b), Items(pending, b));
      }
      forall b | Items(pending, b) == map[] ensures pendingNonces.Nonce(b) == old(pendingNonces.Nonce(b)) {
        assert DemotedAt(b, p1, q1) && PromotedTo(b, old(pending), old(queue), old(pendingNonces.Nonce(b)), p1, q1);
        RebuiltEmpty(old(pending), old(queue), old(all.all), p1, b, state.nonce(b), state.balance(b), state.maxGas,
          old(pendingNonces.Nonce(b)), Limit(b), Items(pending, b));
      }
      forall b | old(pendingNonces.Nonce(b)) < state.nonce(b) && (forall n :: n in Items(old(pending), b) ==> n < state.nonce(b))
        ensures LaggingAt(b) {
        assert DemotedAt(b, p1, q1) && PromotedTo(b, old(pending), old(queue), old(pendingNonces.Nonce(b)), p1, q1);
        RebuiltBehind(old(pending), old(queue), old(all.all), p1, b, state.nonce(b), state.balance(b), state.maxGas,
          old(pendingNonces.Nonce(b)), Limit(b), Items(pending, b));
      }
    }

    lemma ValidFacts()
      requires Valid()
      ensures ListsOk(pending, true) && Consistent(pending, queue, all.all, {})
    {
      hide Agree, ListsOk, Covers;
    }

    ghost predicate SafeAt(b: Address, lo: nat)
      reads this, pendingNonces
    {
      SafeFrom(pending, queue, pendingNonces.View(), b, lo)
    }

    /** The reset is safe for account b, whose pending nonces start at lo, given the lists and virtual
        nonces it starts from. */
    ghost predicate SafeFrom(p: Lists, q: Lists, nonces: Nonces, b: Address, lo: nat)
      reads this`state, this`locals
    {
      ResetSafe(Items(p, b), PromotionOf(ListOf(q, b, false), b, nonces.At(b)).readies,
        lo, state.nonce(b), state.balance(b), state.maxGas)
    }

    /** Sets every account with pending transactions to the nonce after its last one. */
    method UpdateNonces()
      requires Valid()
      modifies pendingNonces
      ensures Valid()
      ensures forall b :: b in pending ==> pending[b].items != map[]
      ensures forall b :: pendingNonces.Nonce(b) == if b in pending && pending[b].items != map[]
                                                    then Max(pending[b].items.Keys) + 1 else old(pendingNonces.Nonce(b))
      ensures forall b :: old(SteadyAt(b)) ==> SteadyAt(b)
    {
      hide Consistent, Covers, Contiguous, Payable;
      ghost var p := pending;
      forall b | b in pending ensures pending[b].items != map[] { PendingListOk(pending, queue, all.all, b); }
      var todo := pending.Keys;
      while todo != {}
        invariant todo <= pending.Keys && Valid()
        invariant forall b :: pendingNonces.Nonce(b) == if b in pending && b !in todo && pending[b].items != map[]
                                                        then Max(pending[b].items.Keys) + 1 else old(pendingNonces.Nonce(b))
        decreases todo
      {
        var a :| a in todo;
        pendingNonces.Set(a, Max(pending[a].items.Keys) + 1);
        todo := todo - {a};
      }
      forall b | old(SteadyAt(b)) ensures SteadyAt(b) {
        if Items(pending, b) != map[] {
          LastIsNext(Items(pending, b), state.nonce(b), old(pendingNonces.Nonce(b)));
        }
      }
    }

    /** Adds transactions one after the other; stocks lists what is held before, between and after.
        The accounts that gained a transaction without replacing one are dirty. */
    method AddAll(txs: seq<Tx>, local: bool) returns (outcomes: seq<Outcome>, dirty: set<Address>, ghost stocks: seq<Stock>)
      requires Valid() && forall tx :: tx in txs ==> tx.gas <= Intrinsic.MAX_UINT64
      modifies this`pending, this`queue, this`beats, this`locals, all, priced, pendingNonces
      ensures Valid() && Submitted(Rules(), txs, local, outcomes, stocks)
      ensures stocks[0] == old(Held()) && stocks[|txs|] == Held()
      ensures dirty == Gained(txs, outcomes)
      ensures forall b :: old(SteadyAt(b)) ==> SteadyAt(b)
      ensures Trims(old(pending), old(pendingNonces.View()), pending, pendingNonces.View())
      ensures old(FitsAll(txs)) ==> SameKeys(old(pending), pending) && pendingNonces.View() == old(pendingNonces.View())
    {
      hide Valid, SteadyAt, OnlyCheapRemotesLeft, Trims, SameKeys, Step, Submitted, Gained, Spared;
      outcomes, dirty, stocks := [], {}, [Held()];
      TrimsNothing(pending, pendingNonces.View());
      SubmitNone(Rules(), local, Held());
      GainNone();
      for i := 0 to |txs|
        invariant Valid() && |outcomes| == i && |stocks| == i + 1 && Submitted(Rules(), txs[..i], local, outcomes, stocks)
        invariant stocks[0] == old(Held()) && stocks[i] == Held()
        invariant dirty == Gained(txs[..i], outcomes) && |all.all| <= |old(all.all)| + i
        invariant forall b :: old(SteadyAt(b)) ==> SteadyAt(b)
        invariant Trims(old(pending), old(pendingNonces.View()), pending, pendingNonces.View())
        invariant old(FitsAll(txs)) ==> SameKeys(old(pending), pending) && pendingNonces.View() == old(pendingNonces.View())
      {
        ghost var before, was, nonces := all.all, pending, pendingNonces.View();
        var r := Add(txs[i], local);
        assert txs[..i + 1] == txs[..i] + [txs[i]];
        SubsetSize(all.all, before + {txs[i]});
        SubmitOne(Rules(), txs[..i], local, outcomes, stocks, txs[i], r, Held());
        GainOne(txs[..i], outcomes, txs[i], r);
        TrimsTwice(old(pending), old(pendingNonces.View()), was, nonces, pending, pendingNonces.View());
        if old(FitsAll(txs)) {
          SameKeysTwice(old(pending), was, pending);
        }
        outcomes, stocks := outcomes + [r], stocks + [Held()];
        if r == Added(false) {
          dirty := dirty + {txs[i].sender};
        }
      }
      assert txs[..|txs|] == txs;
    }

    /** There is nothing to add, or it all fits without making room. */
    ghost predicate FitsAll(txs: seq<Tx>)
      reads all
    {
      txs == [] || |all.all| + |txs| <= Capacity(config)
    }

    /** Moves the pool onto a new chain state and reinjects transactions the reorganisation dropped.
        That only cuts tails of pending lists, and each virtual nonce ends as the least of the chain's
        and of the nonces cut. */
    method Reset(head: NewHead) returns (outcomes: seq<Outcome>, ghost stocks: seq<Stock>)
      requires Valid() && forall tx :: tx in head.reinject ==> tx.gas <= Intrinsic.MAX_UINT64
      modifies this`pendingNonces, this`state, this`pending, this`queue, this`beats, this`locals, all, priced
      ensures Valid() && fresh(pendingNonces) && state == head.state.(eip2 := old(state).eip2)
      ensures Submitted(Terms(config, ResetState(head, old(state)), gasPrice), head.reinject, false, outcomes, stocks)
      ensures stocks[0] == old(Held()) && stocks[|head.reinject|] == Held() && locals == old(locals)
      ensures Trims(old(pending), Nonces(state.nonce, map[]), pending, pendingNonces.View())
      ensures old(FitsAll(head.reinject)) ==> SameKeys(old(pending), pending) && pendingNonces.View() == Nonces(state.nonce, map[])
    {
      hide Sound, Covers, Submitted, Trims, SameKeys;
      state := ResetState(head, state);
      pendingNonces := new TxNoncer(head.state.nonce);
      var dirty;
      outcomes, dirty, stocks := AddAll(head.reinject, false);
      SameLocals(Rules(), head.reinject, outcomes, stocks, |head.reinject|);
      state := state.(eip2028 := head.state.eip2028);
    }

    /** The arrival of a new head switches on the rules it brings, before the pool moves to it. */
    method HeadArrives(eip2: bool, eip2028: bool)
      requires Valid()
      modifies this`state
      ensures Valid() && state == old(state).(eip2 := old(state).eip2 || eip2, eip2028 := old(state).eip2028 || eip2028)
      ensures forall b :: old(SteadyAt(b)) ==> SteadyAt(b)
    {
      hide Sound, Covers;
      if eip2 {
        state := state.(eip2 := true);
      }
      if eip2028 {
        state := state.(eip2028 := true);
      }
    }

    /** Resets onto a new head and rebuilds the lists. An account whose pending nonces were gapless
        comes out gapless exactly when it is safe from what the reset leaves, in particular when the
        chain's nonce did not fall back. It lags exactly when the reset left its virtual nonce below
        the chain's. */
    method MoveTo(head: NewHead) returns (ghost start: Restart)
      requires Valid() && forall tx :: tx in head.reinject ==> tx.gas <= Intrinsic.MAX_UINT64
      modifies this`pendingNonces, this`state, this`pending, this`queue, this`beats, this`locals, all, priced
      ensures Valid() && fresh(pendingNonces) && state == head.state.(eip2 := old(state).eip2) && locals == old(locals)
      ensures Restarts(start, head, Terms(config, ResetState(head, old(state)), gasPrice), old(Held()), old(pending))
      ensures old(FitsAll(head.reinject)) ==> SameKeys(old(pending), start.pending) && start.nonces == Nonces(state.nonce, map[])
      ensures forall b :: ExecutableAt(b)
      ensures forall b, lo, hi :: Contiguous(Items(start.pending, b), lo, hi) ==>
                                    (Gapless(Items(pending, b), state.nonce(b)) <==> SafeFrom(start.pending, start.queue, start.nonces, b, lo))
      ensures forall b :: Items(pending, b) == map[] ==> pendingNonces.Nonce(b) == start.nonces.At(b)
      ensures forall b :: start.nonces.At(b) < state.nonce(b) ==> LaggingAt(b)
      ensures forall b :: RebuiltAt(b, start.pending, start.queue, start.nonces.At(b), pending, queue)
      ensures all.all <= start.stocks[|head.reinject|].all
      ensures forall b :: old(OrderlyAt(b)) && old(state).nonce(b) <= state.nonce(b) ==> Gapless(Items(pending, b), state.nonce(b))
    {
      hide Valid, Contiguous, Gapless, Items, ListOf, PromotionOf, ResetSafe, Executable, Trims, Trimmed, SameKeys, Submitted, Payable, Consistent,
           RebuiltAt;
      ghost var nonces0 := Nonces(head.state.nonce, map[]);
      var outcomes, stocks := Reset(head);
      start := Restart(outcomes, stocks, pending, queue, pendingNonces.View());
      ValidFacts();
      TrimsLower(old(pending), nonces0, pending, start.nonces);
      forall b ensures pendingNonces.Nonce(b) <= state.nonce(b) {
        assert start.nonces.At(b) <= nonces0.At(b);
      }
      Rebuild();
      forall b | start.nonces.At(b) < state.nonce(b) ensures LaggingAt(b) {
        TrimsAt(old(pending), nonces0, start.pending, start.nonces, b);
        TrimmedBelow(Items(old(pending), b), Items(start.pending, b), state.nonce(b), start.nonces.At(b));
      }
      forall b | old(OrderlyAt(b)) && old(state).nonce(b) <= state.nonce(b) ensures Gapless(Items(pending, b), state.nonce(b)) {
        var hi := if old(SteadyAt(b)) then old(pendingNonces.Nonce(b)) else old(state).nonce(b);
        NothingContiguous(old(state).nonce(b));
        TrimsAt(old(pending), nonces0, start.pending, start.nonces, b);
        var end := TrimmedContiguous(Items(old(pending), b), Items(start.pending, b), state.nonce(b), start.nonces.At(b), old(state).nonce(b), hi);
        SafeForward(Items(start.pending, b), PromotionOf(ListOf(start.queue, b, false), b, start.nonces.At(b)).readies, old(state).nonce(b),
          state.nonce(b), state.balance(b), state.maxGas);
      }
    }

    /** Both pools respect their limits, as far as local accounts and guaranteed slots allow. */
    ghost predicate WithinLimits()
      reads this
    {
      && (Total(pending) <= config.globalSlots ||
          forall a :: a in pending && a !in locals ==> Count(pending[a].items) <= config.accountSlots)
      && (Total(queue) <= config.globalQueue || forall a :: a in queue ==> a in locals)
    }

    /** One background run: reset onto a new head if there is one, promote, demote, truncate, and
        bring the virtual nonces up to date. After a move an account is steady exactly when its
        pending nonces are gapless and, with nothing pending, its virtual nonce is the chain's. */
    method RunReorg(event: HeadEvent, dirty: seq<Address>) returns (ghost t: Trace)
      requires Valid() && forall i, j :: 0 <= i < j < |dirty| ==> dirty[i] != dirty[j]
      requires event.Moved? ==> forall tx :: tx in event.head.reinject ==> tx.gas <= Intrinsic.MAX_UINT64
      modifies this`pendingNonces, this`state, this`pending, this`queue, this`beats, this`locals, all, priced, pendingNonces
      ensures Valid() && WithinLimits() && locals == old(locals)
      ensures if event.Moved? then fresh(pendingNonces) && state == event.head.state.(eip2 := old(state).eip2)
              else pendingNonces == old(pendingNonces) && state == old(state)
      ensures forall b :: b in pending ==> pending[b].items != map[] && pendingNonces.Nonce(b) == Max(pending[b].items.Keys) + 1
      ensures event.Moved? ==>
                && Restarts(t.start, event.head, Terms(config, ResetState(event.head, old(state)), gasPrice), old(Held()), old(pending))
                && (old(FitsAll(event.head.reinject)) ==>
                      SameKeys(old(pending), t.start.pending) && t.start.nonces == Nonces(state.nonce, map[]))
      ensures Consistent(t.mid, t.midQueue, t.pooled, {}) && all.all <= t.pooled
      ensures t.pooled <= if event.Moved? then t.start.stocks[|event.head.reinject|].all else old(all.all)
      ensures !event.Moved? ==> forall b :: (old(SteadyAt(b)) ==> SteadyAt(b)) && (old(LaggingAt(b)) ==> LaggingAt(b))
      ensures event.Unmoved? ==> forall b :: if b in dirty then PromotedTo(b, old(pending), old(queue), old(pendingNonces.Nonce(b)), t.mid, t.midQueue)
                                           else Items(t.mid, b) == Items(old(pending), b) && Items(t.midQueue, b) == Items(old(queue), b)
      ensures !event.Unmoved? ==> forall b :: ExecutableAt(b) && RebuiltAt(b, t.start.pending, t.start.queue, t.start.nonces.At(b), t.mid, t.midQueue)
      ensures !event.Moved? ==> t.start.pending == old(pending) && t.start.queue == old(queue) && t.start.nonces == old(pendingNonces.View())
      ensures event.Moved? ==>
                forall b, lo, hi :: Contiguous(Items(t.start.pending, b), lo, hi) ==>
                                      (Gapless(Items(t.mid, b), state.nonce(b)) <==>
                                       SafeFrom(t.start.pending, t.start.queue, t.start.nonces, b, lo))
      ensures event.Moved? ==> forall b ::
                && (Gapless(Items(t.mid, b), state.nonce(b)) ==> Gapless(Items(pending, b), state.nonce(b)))
                && (SteadyAt(b) <==> Gapless(Items(pending, b), state.nonce(b)) && t.start.nonces.At(b) == state.nonce(b))
      ensures event.Moved? ==> forall b ::
                && (LaggingAt(b) <==> pendingNonces.Nonce(b) < state.nonce(b))
                && (LaggingAt(b) <==> exists m :: m in Items(old(pending), b) && m !in Items(t.start.pending, b) && m < state.nonce(b))
      ensures event.Moved? ==> forall b :: old(OrderlyAt(b)) && old(state).nonce(b) <= state.nonce(b) ==>
                OrderlyAt(b) && (old(FitsAll(event.head.reinject)) ==> SteadyAt(b))
      ensures Fair(t.mid, pending, locals, config.accountSlots, config.globalSlots, t.level)
      ensures (Total(t.midQueue) <= config.globalQueue ==> queue == t.midQueue)
              && t.midQueue.Keys <= t.stamps.Keys && Evicted(t.midQueue, queue, locals, t.stamps)
    {
      hide Valid, WithinLimits, SteadyAt, LaggingAt, OrderlyAt, ExecutableAt, Fair, Total, Evicted, Submitted, Items, ListOf, PromotionOf,
           Gapless, Contiguous, SafeFrom, Trims, SameKeys, FitsAll, Consistent, ListsOk, RebuiltAt;
      ghost var start := Restart([], [], pending, queue, pendingNonces.View());
      assert forall b :: start.nonces.At(b) == pendingNonces.Nonce(b);
      match event {
        case Unmoved =>
          PromoteExecutables(dirty);
        case Abandoned =>
          Recheck();
        case Moved(head) =>
          start := MoveTo(head);
      }
      assert !event.Unmoved? ==> forall b :: RebuiltAt(b, start.pending, start.queue, start.nonces.At(b), pending, queue);
      ValidFacts();
      ghost var mid, midQueue, pooled, stamps := pending, queue, all.all, beats;
      ghost var level := Tidy();
      t := Trace(start, mid, midQueue, pooled, stamps, level);
      if event.Moved? {
        forall b
          ensures Gapless(Items(mid, b), state.nonce(b)) ==> Gapless(Items(pending, b), state.nonce(b))
          ensures SteadyAt(b) <==> Gapless(Items(pending, b), state.nonce(b)) && start.nonces.At(b) == state.nonce(b)
          ensures LaggingAt(b) <==> pendingNonces.Nonce(b) < state.nonce(b)
          ensures LaggingAt(b) <==> exists m :: m in Items(old(pending), b) && m !in Items(start.pending, b) && m < state.nonce(b)
          ensures Gapless(Items(pending, b), state.nonce(b)) ==> OrderlyAt(b)
        {
          TrimsAt(old(pending), Nonces(state.nonce, map[]), start.pending, start.nonces, b);
          LoweredIff(Items(old(pending), b), Items(start.pending, b), state.nonce(b), start.nonces.At(b));
          Regained(mid, b, level, start.nonces.At(b));
        }
      }
    }

    /** The same run, as one step of the pool. */
    method Reorganise(event: HeadEvent, dirty: seq<Address>) returns (ghost t: Trace)
      requires Valid() && forall i, j :: 0 <= i < j < |dirty| ==> dirty[i] != dirty[j]
      requires event.Moved? ==> forall tx :: tx in event.head.reinject ==> tx.gas <= Intrinsic.MAX_UINT64
      modifies this`pendingNonces, this`state, this`pending, this`queue, this`beats, this`locals, all, priced, pendingNonces
      ensures Valid() && Reorganised(event, dirty, old(Now()), t, Now())
      ensures if event.Moved? then fresh(pendingNonces) && state == event.head.state.(eip2 := old(state).eip2)
              else pendingNonces == old(pendingNonces) && state == old(state)
      ensures !event.Moved? ==> forall b :: (old(SteadyAt(b)) ==> SteadyAt(b)) && (old(LaggingAt(b)) ==> LaggingAt(b))
      ensures event.Moved? ==> forall b :: old(OrderlyAt(b)) && old(state).nonce(b) <= state.nonce(b) ==>
                OrderlyAt(b) && (old(FitsAll(event.head.reinject)) ==> SteadyAt(b))
    {
      hide Valid, WithinLimits, SteadyAt, LaggingAt, OrderlyAt, ExecutableAt, Fair, Total, Evicted, Submitted, Items, ListOf, PromotionOf,
           Gapless, Contiguous, SafeFrom, Trims, SameKeys, FitsAll, Consistent, ListsOk, PromotedTo, Rebuilt, Restarts, Passes;
      QueuesOk();
      ghost var nonces := pendingNonces.View();
      assert forall b :: nonces.At(b) == pendingNonces.Nonce(b);
      t := RunReorg(event, dirty);
      forall b ensures Passes(event, b in dirty, Rules(), locals, t.start, b, Items(t.mid, b), Items(t.midQueue, b)) {
        if event.Unmoved? {
          PassedBy(b, b in dirty, t.start, t.mid, t.midQueue);
        } else {
          RebuiltBoth(event, b, t.start, t.mid, t.midQueue);
        }
      }
    }

    lemma RebuiltBoth(event: HeadEvent, b: Address, start: Restart, mid: Lists, midQueue: Lists)
      requires !event.Unmoved? && RebuiltAt(b, start.pending, start.queue, start.nonces.At(b), mid, midQueue)
      ensures forall dirty :: Passes(event, dirty, Rules(), locals, start, b, Items(mid, b), Items(midQueue, b))
    {
      hide Rebuilt;
    }

    lemma PassedBy(b: Address, dirty: bool, start: Restart, mid: Lists, midQueue: Lists)
      requires ListOf(start.queue, b, false).Valid() && !ListOf(start.queue, b, false).strict
      requires if dirty then PromotedTo(b, start.pending, start.queue, start.nonces.At(b), mid, midQueue)
               else Items(mid, b) == Items(start.pending, b) && Items(midQueue, b) == Items(start.queue, b)
      ensures Passes(Unmoved, dirty, Rules(), locals, start, b, Items(mid, b), Items(midQueue, b))
    {
      hide Promote, ListState.Valid;
      if dirty {
        assert ListOf(start.queue, b, false).items == Items(start.queue, b);
        PromoteIs(ListOf(start.queue, b, false), BarOf(state, b), start.nonces.At(b), Limit(b));
      }
    }

    /** Without a move: promotes everything executable and demotes what is not. */
    method Recheck()
      requires Valid()
      modifies this`pending, this`queue, this`beats, all, priced, pendingNonces
      ensures Valid() && all.all <= old(all.all) && forall b :: ExecutableAt(b)
      ensures forall b :: RebuiltAt(b, old(pending), old(queue), old(pendingNonces.Nonce(b)), pending, queue)
      ensures forall b :: (old(SteadyAt(b)) ==> SteadyAt(b)) && (old(LaggingAt(b)) ==> LaggingAt(b))
    {
      hide Valid, SteadyAt, LaggingAt, ExecutableAt, Consistent, ListsOk, ListOf, Promote, PromotedTo, DemotedAt, RebuiltAt;
      QueuesOk();
      PromoteQueued();
      ghost var p1, q1 := pending, queue;
      ValidFacts();
      DemoteUnexecutables();
      forall b ensures RebuiltAt(b, old(pending), old(queue), old(pendingNonces.Nonce(b)), pending, queue) {
        RebuiltOne(b, old(pending), old(queue), old(pendingNonces.Nonce(b)), p1, q1);
      }
    }

    lemma Regained(mid: Lists, b: Address, level: nat, virtual: nat)
      requires Fair(mid, pending, locals, config.accountSlots, config.globalSlots, level) && ExecutableAt(b)
      requires b in pending ==> pending[b].items != map[] && pendingNonces.Nonce(b) == Max(pending[b].items.Keys) + 1
      requires Items(pending, b) == map[] ==> pendingNonces.Nonce(b) == virtual
      requires virtual <= state.nonce(b) && (virtual < state.nonce(b) ==> LaggingAt(b))
      ensures Gapless(Items(pending, b), state.nonce(b)) ==> OrderlyAt(b)
      ensures Gapless(Items(mid, b), state.nonce(b)) ==> Gapless(Items(pending, b), state.nonce(b))
      ensures SteadyAt(b) <==> Gapless(Items(pending, b), state.nonce(b)) && virtual == state.nonce(b)
      ensures LaggingAt(b) <==> pendingNonces.Nonce(b) < state.nonce(b)
      ensures LaggingAt(b) <==> virtual < state.nonce(b)
    {
      hide Gapless, Contiguous, Payable, Lowest, Total;
      if b in mid && b !in locals && Gapless(Items(mid, b), state.nonce(b)) {
        CutGapless(mid[b].items, level, state.nonce(b));
      }
      SteadyIff(Items(pending, b), state.nonce(b), pendingNonces.Nonce(b));
    }

    /** Cuts pending lists and queues to their limits and brings the virtual nonces up to date. */
    method Tidy() returns (ghost level: nat)
      requires Valid()
      modifies this`pending, this`queue, this`beats, all, priced, pendingNonces
      ensures Valid() && WithinLimits() && all.all <= old(all.all)
      ensures Fair(old(pending), pending, locals, config.accountSlots, config.globalSlots, level)
      ensures Total(old(queue)) <= config.globalQueue ==> queue == old(queue)
      ensures old(queue).Keys <= old(beats).Keys && Evicted(old(queue), queue, locals, old(beats))
      ensures forall b :: b in pending ==> pending[b].items != map[] && pendingNonces.Nonce(b) == Max(pending[b].items.Keys) + 1
      ensures forall b :: (old(SteadyAt(b)) ==> SteadyAt(b)) && (old(LaggingAt(b)) ==> LaggingAt(b))
      ensures forall b :: old(ExecutableAt(b)) ==> ExecutableAt(b)
      ensures forall b :: Items(pending, b) == map[] ==> Items(old(pending), b) == map[] && pendingNonces.Nonce(b) == old(pendingNonces.Nonce(b))
    {
      hide Valid, SteadyAt, Fair, Total, Evicted, Executable, Items, Trims, Consistent, ListsOk;
      ValidFacts();
      level := TruncatePending();
      FairTrims(old(pending), old(pendingNonces.View()), pending, pendingNonces.View(), locals, config.accountSlots, config.globalSlots, level);
      NoItemsAll(pending);
      forall b | Items(pending, b) == map[] ensures pendingNonces.Nonce(b) == old(pendingNonces.Nonce(b)) {
        assert pendingNonces.View().At(b) == old(pendingNonces.View()).At(b);
      }
      FairLimits(old(pending), pending, locals, config.accountSlots, config.globalSlots, level);
      forall b | old(ExecutableAt(b)) ensures ExecutableAt(b) {
        StillExecutable(old(pending), b, level);
      }
      TruncateQueue();
      UpdateNonces();
      ValidFacts();
      TruncatedFewer(old(pending), old(queue), old(all.all), pending, queue, all.all, locals, config.accountSlots, config.globalSlots, level, old(beats));
    }

    lemma StillExecutable(mid: Lists, b: Address, level: nat)
      requires Fair(mid, pending, locals, config.accountSlots, config.globalSlots, level)
      requires Executable(Items(mid, b), state.nonce(b), state.balance(b), state.maxGas)
      ensures ExecutableAt(b)
    {
      hide Executable, Lowest;
      if b in mid && b !in locals {
        CutExecutable(mid[b].items, level, state.nonce(b), state.balance(b), state.maxGas);
      }
    }

    /** Promotion took account b from lists p0 and q0 to p1 and q1. */
    ghost predicate PromotedTo(b: Address, p0: Lists, q0: Lists, n0: nat, p1: Lists, q1: Lists)
      reads this`state, this`locals
    {
      var pr := PromotionOf(ListOf(q0, b, false), b, n0);
      Items(p1, b) == Items(p0, b) + pr.readies && Items(q1, b) == pr.list.items
    }

    method TimePasses(now: int)
      requires Valid()
      modifies this`clock
      ensures Valid() && clock == now
    {
      clock := now;
    }

    /** Drops the queued transactions of remote accounts that were inactive for too long. */
    method EvictStale(lifetime: int)
      requires Valid()
      modifies this`pending, this`queue, this`beats, all, priced, pendingNonces
      ensures Valid() && pending == old(pending)
      ensures forall b :: b in queue <==> b in old(queue) && (b in locals || b !in old(beats) || clock - old(beats)[b] <= lifetime)
      ensures forall b :: b in queue ==> queue[b] == old(queue)[b]
      ensures forall b :: old(SteadyAt(b)) ==> SteadyAt(b)
      ensures pendingNonces.View() == old(pendingNonces.View())
    {
      hide Consistent, Covers, SteadyAt;
      var todo := queue.Keys;
      while todo != {}
        invariant todo <= old(queue).Keys && Valid() && pending == old(pending)
        invariant forall b :: b in todo ==> b in beats && b in old(beats) && beats[b] == old(beats)[b]
        invariant forall b :: b in queue <==>
                                b in old(queue) && (b in todo || b in locals || b !in old(beats) || clock - old(beats)[b] <= lifetime)
        invariant forall b :: b in queue ==> queue[b] == old(queue)[b]
        invariant forall b :: old(SteadyAt(b)) ==> SteadyAt(b)
        invariant pendingNonces.View() == old(pendingNonces.View())
        decreases todo
      {
        var a :| a in todo;
        todo := todo - {a};
        if a !in locals && clock - beats[a] > lifetime {
          ghost var b0 := beats;
          ClearQueue(a);
          SameElsewhere(b0, beats, a);
        }
      }
    }

    /** Any sequence of pool operations keeps the pool consistent. As long as no new head sets an
        account's nonce back, its pending nonces stay gapless from there on; they also stay exactly
        between the chain's nonce and the virtual nonce unless a head reinjects transactions. */
    method Run(ops: seq<Op>) returns (ghost trace: seq<Snapshot>)
      requires Valid() && forall op :: op in ops ==> OpOk(op)
      modifies this, all, priced, pendingNonces
      ensures Valid() && |trace| == |ops| + 1 && trace[0] == old(Now()) && trace[|ops|] == Now()
      ensures forall i :: 0 <= i < |ops| ==> Did(ops[i], trace[i], trace[i + 1])
      ensures forall b :: old(OrderlyAt(b)) && Ascends(ops, b, old(state).nonce(b)) ==> OrderlyAt(b)
      ensures (forall op :: op in ops ==> !Reinjects(op)) ==>
                forall b :: old(SteadyAt(b)) && Ascends(ops, b, old(state).nonce(b)) ==> SteadyAt(b)
      ensures (forall op :: op in ops ==> !op.Reorganise? || !op.event.Moved?) ==> forall b :: old(SteadyAt(b)) ==> SteadyAt(b)
    {
      hide Valid, SteadyAt, OrderlyAt, Ascends, Moves, Did, Now;
      Unmoving(ops);
      assert ops[0..] == ops;
      trace := [Now()];
      for i := 0 to |ops|
        invariant |trace| == i + 1 && trace[0] == old(Now()) && trace[i] == Now()
        invariant forall j :: 0 <= j < i ==> Did(ops[j], trace[j], trace[j + 1])
        invariant Valid() && (pendingNonces == old(pendingNonces) || fresh(pendingNonces))
        invariant forall b :: Ascends(ops, b, old(state).nonce(b)) ==> Ascends(ops[i..], b, state.nonce(b))
        invariant forall b :: old(OrderlyAt(b)) && Ascends(ops, b, old(state).nonce(b)) ==> OrderlyAt(b)
        invariant (forall op :: op in ops ==> !Reinjects(op)) ==>
                    forall b :: old(SteadyAt(b)) && Ascends(ops, b, old(state).nonce(b)) ==> SteadyAt(b)
      {
        assert ops[i] in ops;
        assert ops[i..][1..] == ops[i + 1..];
        AscendAll(ops[i..]);
        Perform(ops[i]);
        trace := trace + [Now()];
      }
    }

    /** One operation keeps the pool consistent, and an account in order unless it sets it back. */
    method Perform(op: Op)
      requires Valid() && OpOk(op)
      modifies this, all, priced, pendingNonces
      ensures Valid() && (pendingNonces == old(pendingNonces) || fresh(pendingNonces)) && Did(op, old(Now()), Now())
      ensures forall b :: var next := Moves(op, b, old(state).nonce(b)); next.Some? ==>
                && next.value == state.nonce(b) && (old(OrderlyAt(b)) ==> OrderlyAt(b))
                && (old(SteadyAt(b)) && !Reinjects(op) ==> SteadyAt(b))
    {
      hide Valid, SteadyAt, Submitted, Restarts, Reorganised, Prunes, Trims, SameKeys, Fair, Evicted, Gapless,
           ExecutableAt, Items, Total, WithinLimits, Contiguous, SafeFrom, PromotedTo;
      match op {
        case Submit(txs, local) =>
          ghost var stocks;
          var outcomes, dirty;
          outcomes, dirty, stocks := AddAll(txs, local);
          assert SubmitsTo(old(Now()), txs, local, outcomes, stocks, Now());
          TrimsLagging(old(pending), old(pendingNonces.View()), state.nonce);
        case Withdraw(tx) =>
          RemoveOne(tx);
          TrimsLagging(old(pending), old(pendingNonces.View()), state.nonce);
        case Arrive(eip2, eip2028) =>
          HeadArrives(eip2, eip2028);
        case Reorganise(event, dirty) =>
          ghost var t := Reorganise(event, dirty);
          assert Reorganised(event, dirty, old(Now()), t, Now());
        case Reprice(price) =>
          SetGasPrice(price);
          TrimsLagging(old(pending), old(pendingNonces.View()), state.nonce);
        case Expire(lifetime) =>
          EvictStale(lifetime);
          TrimsNothing(pending, pendingNonces.View());
          TrimsLagging(old(pending), old(pendingNonces.View()), state.nonce);
        case Pass(now) =>
          TimePasses(now);
      }
    }

    /** Cutting pending lists leaves a lagging account as it is. */
    lemma TrimsLagging(p0: Lists, n0: Nonces, nonce: Address -> nat)
      requires Trims(p0, n0, pending, pendingNonces.View()) && nonce == state.nonce
      ensures forall b :: Items(p0, b) == map[] && n0.At(b) < nonce(b) ==> LaggingAt(b)
    {
      hide Items, Trims;
      forall b | Items(p0, b) == map[] && n0.At(b) < nonce(b) ensures LaggingAt(b) {
        TrimsAt(p0, n0, pending, pendingNonces.View(), b);
      }
    }

    method RemoveOne(tx: Tx)
      requires Valid()
      modifies this`pending, this`queue, this`beats, all, priced, pendingNonces
      ensures Valid() && all.all == old(all.all) - {tx}
      ensures forall b :: old(SteadyAt(b)) ==> SteadyAt(b)
      ensures Trims(old(pending), old(pendingNonces.View()), pending, pendingNonces.View()) && Prunes(old(pending), pending, {tx})
    {
      hide Consistent, Covers, SteadyAt, Trims, Prunes;
      RemoveTx(tx, true);
    }
  }

  /** The accounts that gained a transaction without replacing one. */
  ghost function Gained(txs: seq<Tx>, outcomes: seq<Outcome>): set<Address>
    requires |outcomes| == |txs|
  {
    set i | 0 <= i < |txs| && outcomes[i] == Added(false) :: txs[i].sender
  }

  lemma GainNone()
    ensures Gained([], []) == {}
  {
  }

  lemma GainOne(txs: seq<Tx>, outcomes: seq<Outcome>, tx: Tx, r: Outcome)
    requires |outcomes| == |txs|
    ensures Gained(txs + [tx], outcomes + [r]) == Gained(txs, outcomes) + if r == Added(false) then {tx.sender} else {}
  {
    var txs', outcomes' := txs + [tx], outcomes + [r];
    forall a | a in Gained(txs, outcomes) ensures a in Gained(txs', outcomes') {
      var i :| 0 <= i < |txs| && outcomes[i] == Added(false) && txs[i].sender == a;
      assert outcomes'[i] == Added(false) && txs'[i].sender == a;
    }
    if r == Added(false) {
      assert outcomes'[|txs|] == Added(false) && txs'[|txs|].sender == tx.sender;
    }
  }

  /** The chain nonce of account b after an operation that does not set it back. */
  ghost function Moves(op: Op, b: Address, nonce: nat): Option<nat> {
    if op.Reorganise? && op.event.Moved? then
      if nonce <= op.event.head.state.nonce(b) then Some(op.event.head.state.nonce(b)) else None
    else Some(nonce)
  }

  predicate Reinjects(op: Op) {
    op.Reorganise? && op.event.Moved? && op.event.head.reinject != []
  }

  /** No operation of the sequence sets the nonce of account b back. */
  ghost predicate Ascends(ops: seq<Op>, b: Address, nonce: nat) {
    ops == [] || (Moves(ops[0], b, nonce).Some? && Ascends(ops[1..], b, Moves(ops[0], b, nonce).value))
  }

  lemma AscendAll(ops: seq<Op>)
    requires ops != []
    ensures forall b, n :: Ascends(ops, b, n) ==> Moves(ops[0], b, n).Some? && Ascends(ops[1..], b, Moves(ops[0], b, n).value)
  {
  }

  lemma {:induction false} UnmovingAt(ops: seq<Op>, b: Address, n: nat)
    requires forall op :: op in ops ==> !op.Reorganise? || !op.event.Moved?
    ensures Ascends(ops, b, n)
  {
    if ops != [] {
      UnmovingAt(ops[1..], b, n);
    }
  }

  lemma Unmoving(ops: seq<Op>)
    ensures (forall op :: op in ops ==> !op.Reorganise? || !op.event.Moved?) ==> forall b, n :: Ascends(ops, b, n)
  {
    if forall op :: op in ops ==> !op.Reorganise? || !op.event.Moved? {
      forall b, n ensures Ascends(ops, b, n) { UnmovingAt(ops, b, n); }
    }
  }

  /** What a reset leaves to the rebuild: how the reinjections went, the lists and the virtual nonces. */
  datatype Restart = Restart(outcomes: seq<Outcome>, stocks: seq<Stock>, pending: Lists, queue: Lists, nonces: Nonces)

  /** What a background run goes through: what a reset leaves, the lists, the pool and the heartbeats
      before truncation, and the level of the cut. */
  datatype Trace = Trace(start: Restart, mid: Lists, midQueue: Lists, pooled: set<Tx>, stamps: map<Address, int>, level: nat)

  /** The state reinjected transactions are judged by: the new head's, under the rules of the old one. */
  function ResetState(head: NewHead, old': ChainState): ChainState {
    head.state.(eip2 := old'.eip2, eip2028 := old'.eip2028)
  }

  lemma PlacedBy(bump: nat, kept: set<Tx>, tx: Tx, prior: Option<Tx>, r: Outcome, after: set<Tx>)
    requires Holders(kept, tx) == AsSet(prior)
    requires if prior.Some? && !ListState.Replaces(tx, prior.value, bump) then r == Rejected(ReplaceUnderpriced) && after == kept
             else r == Added(prior.Some?) && after == kept - AsSet(prior) + {tx}
    ensures Placed(bump, kept, tx, r, after)
  {
    hide Holders, ListState.Replaces;
  }

  /** A reset submits every transaction to reinject. Nothing but tails of pending lists is lost, and
      each virtual nonce is the least of the chain's and of the nonces cut. */
  ghost predicate Restarts(start: Restart, head: NewHead, terms: Terms, held: Stock, pending: Lists) {
    && Submitted(terms, head.reinject, false, start.outcomes, start.stocks) && start.stocks[0] == held
    && Consistent(start.pending, start.queue, start.stocks[|head.reinject|].all, {})
    && Trims(pending, Nonces(head.state.nonce, map[]), start.pending, start.nonces)
  }

  /** A chain nonce that did not fall back makes the reset safe. */
  lemma SafeForward(p: NonceMap, readies: NonceMap, lo: nat, nonce: nat, balance: int, maxGas: nat)
    requires lo <= nonce
    ensures ResetSafe(p, readies, lo, nonce, balance, maxGas)
  {
  }

  /** Where nothing is left after a cut, nothing was there and the virtual nonce is the same. */
  lemma FairTrims(p0: Lists, n0: Nonces, p: Lists, n: Nonces, locals: set<Address>, slots: Positive, limit: nat, level: nat)
    requires Fair(p0, p, locals, slots, limit, level) && Trims(p0, n0, p, n)
    ensures forall b :: Items(p, b) == map[] ==> Items(p0, b) == map[] && n.At(b) == n0.At(b)
    ensures forall b :: Items(p0, b) == map[] ==> Items(p, b) == map[]
  {
    hide Fair, Items, Trims;
    forall b
      ensures Items(p, b) == map[] ==> Items(p0, b) == map[] && n.At(b) == n0.At(b)
      ensures Items(p0, b) == map[] ==> Items(p, b) == map[]
    {
      TrimsAt(p0, n0, p, n, b);
      if Items(p, b) == map[] {
        FairEmpty(p0, p, locals, slots, limit, level, b);
      }
    }
  }

  lemma TruncatedFewer(p0: Lists, q0: Lists, all0: set<Tx>, p: Lists, q: Lists, all: set<Tx>, locals: set<Address>,
                       slots: Positive, limit: nat, level: nat, stamps: map<Address, int>)
    requires Consistent(p0, q0, all0, {}) && Consistent(p, q, all, {})
    requires Fair(p0, p, locals, slots, limit, level) && q0.Keys <= stamps.Keys && Evicted(q0, q, locals, stamps)
    ensures all <= all0
  {
    hide Consistent, Items, KeepsLowest, CutAt, Fewer, Total;
    forall b ensures Fewer(Items(p0, b), Items(q0, b), Items(p, b), Items(q, b)) {
      CutFewer(p0, p, locals, level, Items(q0, b), Items(q, b), b);
    }
    FewerPooled(p0, q0, all0, p, q, all);
  }

  lemma NoItemsAll(m: Lists)
    ensures forall b :: b in m && Items(m, b) == map[] ==> m[b].items == map[]
  {
  }

  lemma NothingContiguous(n: nat)
    ensures Contiguous(map[], n, n)
  {
  }

  lemma NothingExecutable(nonce: nat, balance: int, maxGas: nat)
    ensures Executable(map[], nonce, balance, maxGas)
  {
  }

  /** Promotion adds the ready transactions to pending, leaves the rest queued and moves the nonce. */
  ghost predicate Promotes(pr: Promoted, p0: NonceMap, n0: nat, p: NonceMap, q: NonceMap, n: nat) {
    p == p0 + pr.readies && q == pr.list.items && n == if pr.readies != map[] then Max(pr.readies.Keys) + 1 else n0
  }

  /** Everything a pool remembers, but for the counter of stale heap entries. */
  datatype Snapshot = Snapshot(terms: Terms, held: Stock, pending: Lists, queue: Lists, nonces: Nonces, beats: map<Address, int>, clock: int)

  function BarOf(state: ChainState, b: Address): Bar {
    Bar(state.nonce(b), state.balance(b), state.maxGas)
  }

  function QueueLimit(config: Config, locals: set<Address>, b: Address): Option<nat> {
    if b in locals then None else Some(config.accountQueue)
  }

  /** A background run: a reset onto a new head if there is one, promotion of the dirty accounts or a
      rebuild of all, then the fair cut and the eviction. */
  ghost predicate Reorganised(event: HeadEvent, dirty: seq<Address>, s: Snapshot, t: Trace, s': Snapshot) {
    var config, locals := s.terms.config, s.held.locals;
    && s'.terms == s.terms.(state := if event.Moved? then event.head.state.(eip2 := s.terms.state.eip2) else s.terms.state)
    && s'.held.locals == locals
    && (if event.Moved? then Restarts(t.start, event.head, s.terms.(state := ResetState(event.head, s.terms.state)), s.held, s.pending)
        else t.start.pending == s.pending && t.start.queue == s.queue && t.start.nonces == s.nonces)
    && (forall b :: Passes(event, b in dirty, s'.terms, locals, t.start, b, Items(t.mid, b), Items(t.midQueue, b)))
    && Fair(t.mid, s'.pending, locals, config.accountSlots, config.globalSlots, t.level)
    && (Total(t.midQueue) <= config.globalQueue ==> s'.queue == t.midQueue)
    && t.midQueue.Keys <= t.stamps.Keys && Evicted(t.midQueue, s'.queue, locals, t.stamps)
  }

  /** What the passes before the cut make of an account. */
  ghost predicate Passes(event: HeadEvent, dirty: bool, terms: Terms, locals: set<Address>, start: Restart, b: Address, p: NonceMap, q: NonceMap) {
    var p0, q0, n0 := Items(start.pending, b), Items(start.queue, b), start.nonces.At(b);
    var bar, limit := BarOf(terms.state, b), QueueLimit(terms.config, locals, b);
    if !event.Unmoved? then Rebuilt(p0, q0, n0, bar, limit, p, q)
    else if dirty then p == p0 + Ran(q0, bar, n0) && q == Limited(Waiting(q0, bar, n0), limit)
    else p == p0 && q == q0
  }

  /** What one operation does. */
  ghost predicate Did(op: Op, s: Snapshot, s': Snapshot) {
    match op
    case Submit(txs, local) =>
      && s'.terms == s.terms && s'.clock == s.clock
      && exists outcomes, stocks :: SubmitsTo(s, txs, local, outcomes, stocks, s')
    case Withdraw(tx) =>
      && s'.terms == s.terms && s'.clock == s.clock && s'.held.locals == s.held.locals
      && s'.held.all == s.held.all - {tx} && Prunes(s.pending, s'.pending, {tx})
    case Arrive(eip2, eip2028) =>
      var state := s.terms.state;
      s' == s.(terms := s.terms.(state := state.(eip2 := state.eip2 || eip2, eip2028 := state.eip2028 || eip2028)))
    case Reorganise(event, dirty) =>
      s'.clock == s.clock && exists t :: Reorganised(event, dirty, s, t, s')
    case Reprice(price) =>
      && s'.terms == s.terms.(gasPrice := price) && s'.clock == s.clock && s'.held.locals == s.held.locals
      && s'.held.all == (set tx | tx in s.held.all && (tx.sender in s.held.locals || price <= tx.price))
    case Expire(lifetime) =>
      && s'.terms == s.terms && s'.clock == s.clock && s'.held.locals == s.held.locals && s'.pending == s.pending && s'.nonces == s.nonces
      && (forall b :: b in s'.queue <==> b in s.queue && (b in s.held.locals || b !in s.beats || s.clock - s.beats[b] <= lifetime))
      && (forall b :: b in s'.queue ==> s'.queue[b] == s.queue[b])
    case Pass(now) => s' == s.(clock := now)
  }

  ghost predicate SubmitsTo(s: Snapshot, txs: seq<Tx>, local: bool, outcomes: seq<Outcome>, stocks: seq<Stock>, s': Snapshot) {
    Submitted(s.terms, txs, local, outcomes, stocks) && stocks[0] == s.held && stocks[|txs|] == s'.held
  }

  datatype Op =
    | Submit(txs: seq<Tx>, local: bool)
    | Withdraw(tx: Tx)
    | Arrive(eip2: bool, eip2028: bool)
    | Reorganise(event: HeadEvent, dirty: seq<Address>)
    | Reprice(price: nat)
    | Expire(lifetime: int)
    | Pass(now: int)

  /** Gas limits are 64-bit numbers, and dirty accounts come from a set. */
  predicate OpOk(op: Op) {
    match op
    case Submit(txs, local) => forall tx :: tx in txs ==> tx.gas <= Intrinsic.MAX_UINT64
    case Reorganise(event, dirty) =>
      && (forall i, j :: 0 <= i < j < |dirty| ==> dirty[i] != dirty[j])
      && (event.Moved? ==> forall tx :: tx in event.head.reinject ==> tx.gas <= Intrinsic.MAX_UINT64)
    case _ => true
  }

  method KeysOf(m: Lists) returns (s: seq<Address>)
    ensures forall a :: a in s <==> a in m
    ensures forall i, j :: 0 <= i < j < |s| ==> s[i] != s[j]
  {
    s := [];
    var todo := m.Keys;
    while todo != {}
      invariant todo <= m.Keys
      invariant forall a :: a in s <==> a in m && a !in todo
      invariant forall i, j :: 0 <= i < j < |s| ==> s[i] != s[j]
      decreases todo
    {
      var a :| a in todo;
      todo := todo - {a};
      assert a !in s;
      s := s + [a];
    }
  }
}
