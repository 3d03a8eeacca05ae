/** Concrete runs of a small pool that show what it does not keep (core/tx_pool.go). */
module PoolRuns {
  import opened Collections
  import opened TxTypes
  import opened List
  import opened PoolModel
  import opened Priced
  import opened Noncer
  import opened Promotion
  import opened Demotion
  import opened Totals
  import opened Fairness
  import opened Trimming
  import opened Submission
  import opened Pool
  import opened Rebuilding
  import Heap
  import Intrinsic

  const GAS := 21000

  function Plain(id: nat, sender: Address, nonce: nat, price: nat, size: Positive): Tx {
    Tx(id, sender, nonce, price, GAS, 0, size, false, [])
  }

  function Chain(nonce: Address -> nat): ChainState {
    ChainState(nonce, (a: Address) => 1000 * GAS, GAS, false, false)
  }

  lemma PlainFits(terms: Terms, tx: Tx)
    requires tx == Plain(tx.id, tx.sender, tx.nonce, tx.price, tx.size) && terms.state == Chain(terms.state.nonce)
    requires tx.size <= TX_MAX_SIZE && terms.gasPrice <= tx.price <= 1000 && terms.state.nonce(tx.sender) <= tx.nonce
    ensures Fits(terms, {}, tx, false) && !Unpayable(terms.state.balance(tx.sender), terms.state.maxGas)(tx)
  {
    Product(1000 - tx.price, GAS);
    assert tx.Cost() == tx.price * GAS <= 1000 * GAS;
  }

  lemma PlainSlots(tx: Tx)
    ensures tx.size <= 32 * KIB ==> NumSlots(tx) == 1
    ensures tx.size == 128 * KIB ==> NumSlots(tx) == 4
  {
  }

  lemma TwoSlots(a: Tx, b: Tx)
    requires a != b
    ensures Slots({a, b}) == NumSlots(a) + NumSlots(b) && |{a, b}| == 2
  {
    hide NumSlots;
    NoSlots();
    SlotsAdd({}, a);
    SlotsAdd({a}, b);
    assert {} + {a} == {a} && {a} + {b} == {a, b};
  }

  ghost predicate Senders(txs: seq<Tx>) {
    forall i, j :: 0 <= i < j < |txs| ==> txs[i].sender != txs[j].sender
  }

  /** A fresh transaction enters a pool that is not full. */
  lemma FreshStep(terms: Terms, s: Stock, tx: Tx, r: Outcome, s': Stock)
    requires Step(terms, s, tx, false, r, s') && |s.all| < Capacity(terms.config)
    requires tx !in s.all && Holders(s.all, tx) == {} && Fits(terms, s.locals, tx, false)
    ensures r == Added(false) && s'.all == s.all + {tx} && s'.locals == s.locals && multiset(s'.heap) == multiset(s.heap) + multiset{tx}
  {
    hide Fits, Discards, Holders, Covered;
    NothingGone(terms.config, s, tx, false);
    assert s.all - {} + {tx} == s.all + {tx};
  }

  /** One slot is missing and one transaction is the cheapest: it is the one to go. */
  lemma CheapestGoes(config: Config, s: Stock, tx: Tx, c: Tx)
    requires Covered(s) && Capacity(config) <= |s.all| && s.locals == {} && SlotsNeeded(config, s.all, tx) == 1
    requires c in s.all && forall t :: t in s.all && t != c ==> !NoDearer(t, c)
    ensures Discards(config, s, tx, false) == {c} && !Unallocatable(config, s, tx, false)
  {
    hide Heap.IsHeap, Candidates, NoDearer, Slots, NumSlots, AfterStale;
    var stales :| Covers(s.all, s.heap, stales);
    var left := SeenCovers(s.heap, s.all, stales);
    var heap := HeapSeen(s, tx, false);
    var candidates := Candidates(heap, s.all, {});
    CandidatesMembers(heap, s.all, {});
    var i :| 0 <= i < |candidates| && candidates[i] == c;
    if i > 0 {
      CandidatesSorted(heap, s.all, {}, 0, i);
      assert candidates[0] in candidates;
    }
    assert Enough(candidates, 1) == [c] + Enough(candidates[1..], 1 - NumSlots(c)) == [c];
  }

  /** A full pool without local accounts, one slot short, swaps its cheapest for a dearer one. */
  lemma FullStep(terms: Terms, s: Stock, tx: Tx, r: Outcome, s': Stock, c: Tx)
    requires Step(terms, s, tx, false, r, s') && Capacity(terms.config) <= |s.all| && s.locals == {}
    requires SlotsNeeded(terms.config, s.all, tx) == 1 && tx !in s.all && Fits(terms, {}, tx, false)
    requires c in s.all && c.price < tx.price && forall t :: t in s.all && t != c ==> !NoDearer(t, c)
    ensures Placed(terms.config.priceBump, s.all - {c}, tx, r, s'.all)
  {
    hide Fits, Discards, Placed, Covered, Unallocatable, SlotsNeeded, NoDearer;
    CheapestGoes(terms.config, s, tx, c);
  }

  lemma NothingPending(p0: Lists, p: Lists)
    requires SameKeys(p0, p) && forall b :: Items(p0, b) == map[]
    ensures forall b :: Items(p, b) == map[]
  {
    hide Items;
    forall b ensures Items(p, b) == map[] {
      assert Items(p, b).Keys == Items(p0, b).Keys;
    }
  }

  /** A pool with nothing pending takes in one more transaction. */
  method Enter(pool: TxPool, tx: Tx)
    requires pool.Valid() && |pool.Held().all| < Capacity(pool.Rules().config) && tx.gas <= Intrinsic.MAX_UINT64
    requires tx !in pool.Held().all && Holders(pool.Held().all, tx) == {} && Fits(pool.Rules(), pool.Held().locals, tx, false)
    requires forall b :: pool.SteadyAt(b) && Items(pool.pending, b) == map[]
    modifies pool, pool.all, pool.priced, pool.pendingNonces
    ensures pool.Valid() && pool.Rules() == old(pool.Rules()) && pool.pendingNonces == old(pool.pendingNonces)
    ensures pool.Held().all == old(pool.Held().all) + {tx} && pool.Held().locals == old(pool.Held().locals)
    ensures multiset(pool.Held().heap) == multiset(old(pool.Held().heap)) + multiset{tx}
    ensures forall b :: pool.SteadyAt(b) && Items(pool.pending, b) == map[]
  {
    hide Consistent, Covers, Slots, Step, Fits, Holders, OnlyCheapRemotesLeft, Trims, SameKeys, Contiguous, Payable, Items, Spared;
    var r := pool.Add(tx, false);
    FreshStep(pool.Rules(), old(pool.Held()), tx, r, pool.Held());
    NothingPending(old(pool.pending), pool.pending);
  }

  lemma NoLists()
    ensures forall b :: Items(map[], b) == map[]
  {
  }

  /** The pool holds exactly the given transactions, each once in the heap, and nothing is pending. */
  ghost predicate Queued(pool: TxPool, terms: Terms, txs: seq<Tx>)
    reads pool, pool.all, pool.priced, pool.pendingNonces
  {
    && pool.Valid() && pool.Rules() == terms && pool.Held().locals == {}
    && pool.Held().all == Elements(txs) && multiset(pool.Held().heap) == multiset(txs)
    && forall b :: pool.SteadyAt(b) && Items(pool.pending, b) == map[]
  }

  /** A transaction of a new account joins those already there. */
  method Join(pool: TxPool, ghost terms: Terms, ghost txs: seq<Tx>, tx: Tx)
    requires Queued(pool, terms, txs) && |txs| < Capacity(terms.config) && forall t :: t in txs ==> t.sender != tx.sender
    requires tx.gas <= Intrinsic.MAX_UINT64 && Fits(terms, {}, tx, false)
    modifies pool, pool.all, pool.priced, pool.pendingNonces
    ensures Queued(pool, terms, txs + [tx]) && pool.pendingNonces == old(pool.pendingNonces)
  {
    hide Fits, Contiguous, Payable, Consistent, Covers, Slots, Items, Capacity;
    ElementsSize(txs);
    assert Holders(pool.Held().all, tx) == {};
    Enter(pool, tx);
    assert Elements(txs + [tx]) == Elements(txs) + {tx};
  }

  /** A new pool takes in the given transactions, one per account. */
  method Entered(config: Config, state: ChainState, gasPrice: nat, txs: seq<Tx>) returns (pool: TxPool)
    requires |txs| <= Capacity(config) && Senders(txs)
    requires forall i :: 0 <= i < |txs| ==> txs[i].gas <= Intrinsic.MAX_UINT64 && Fits(Terms(config, state, gasPrice), {}, txs[i], false)
    ensures fresh(pool) && fresh(pool.all) && fresh(pool.priced) && fresh(pool.pendingNonces)
    ensures pool.Valid() && pool.Rules() == Terms(config, state, gasPrice) && pool.locals == {}
    ensures pool.all.all == Elements(txs) && multiset(pool.priced.items) == multiset(txs)
    ensures forall b :: pool.SteadyAt(b) && Items(pool.pending, b) == map[]
  {
    hide Fits, Contiguous, Payable, Consistent, Covers, Slots, Items, Queued;
    pool := NewPool(config, state, gasPrice);
    ghost var terms := Terms(config, state, gasPrice);
    for i := 0 to |txs|
      invariant fresh(pool) && fresh(pool.all) && fresh(pool.priced) && fresh(pool.pendingNonces)
      invariant Queued(pool, terms, txs[..i])
    {
      assert txs[..i + 1] == txs[..i] + [txs[i]];
      Join(pool, terms, txs[..i], txs[i]);
    }
    assert txs[..|txs|] == txs;
    Unpack(pool, terms, txs);
  }

  method NewPool(config: Config, state: ChainState, gasPrice: nat) returns (pool: TxPool)
    ensures fresh(pool) && fresh(pool.all) && fresh(pool.priced) && fresh(pool.pendingNonces)
    ensures Queued(pool, Terms(config, state, gasPrice), [])
  {
    hide Contiguous, Payable, Consistent, Covers, Slots, Items;
    pool := new TxPool(config, state, gasPrice, {});
    NoLists();
    assert Elements<Tx>([]) == {};
  }

  lemma Unpack(pool: TxPool, terms: Terms, txs: seq<Tx>)
    requires Queued(pool, terms, txs)
    ensures pool.Valid() && pool.Rules() == terms && pool.locals == {}
    ensures pool.all.all == Elements(txs) && multiset(pool.priced.items) == multiset(txs)
    ensures forall b :: pool.SteadyAt(b) && Items(pool.pending, b) == map[]
  {
    hide Contiguous, Payable, Consistent, Covers, Slots, Items;
  }

  /** Allocation fails: two transactions of four slots each fill a pool of capacity two, and for a
      third one seven slots would have to be freed from a heap of two entries. */
  method AllocationExample() returns (pool: TxPool, r: Outcome)
    ensures pool.Valid() && |pool.all.all| == Capacity(pool.config) == 2 && r == Rejected(AllocationFailed)
  {
    hide Fits, NumSlots, Slots, Consistent, Covers, Contiguous, Payable, Step, Covered, OnlyCheapRemotesLeft, Trims, SameKeys, Items, Spared, TurnedAway,
         Unallocatable, SlotsNeeded, NoDearer, Holders, Placed;
    var config := Config(10, 1, 1, 1, 1);
    var state := Chain((a: Address) => 0);
    var a, b, c := Plain(1, 1, 0, 1, 128 * KIB), Plain(2, 2, 0, 1, 128 * KIB), Plain(3, 3, 0, 2, KIB);
    AllFit(Terms(config, state, 0), [a, b, c]);
    pool := Entered(config, state, 0, [a, b]);
    Two(a, b);
    ghost var s := pool.Held();
    pool.ValidCovered();
    assert |multiset(s.heap)| == 2;
    OutOfReach(config, s, a, b, c);
    r := pool.Add(c, false);
    FailedStep(pool.Rules(), s, c, r, pool.Held());
  }

  lemma FailedStep(terms: Terms, s: Stock, tx: Tx, r: Outcome, s': Stock)
    requires Step(terms, s, tx, false, r, s') && tx !in s.all && Fits(terms, s.locals, tx, false)
    requires Unallocatable(terms.config, s, tx, false) && !TurnedAway(terms.config, s, tx, false)
    ensures r == Rejected(AllocationFailed) && s'.all == s.all
  {
    hide Fits, Unallocatable, TurnedAway, Discards;
  }

  lemma Two(a: Tx, b: Tx)
    ensures Elements([a, b]) == {a, b}
  {
  }

  lemma AllFit(terms: Terms, txs: seq<Tx>)
    requires terms.state == Chain(terms.state.nonce)
    requires forall tx :: tx in txs ==>
               && tx == Plain(tx.id, tx.sender, tx.nonce, tx.price, tx.size) && tx.size <= TX_MAX_SIZE
               && terms.gasPrice <= tx.price <= 1000 && terms.state.nonce(tx.sender) <= tx.nonce
    ensures forall i :: 0 <= i < |txs| ==> Fits(terms, {}, txs[i], false)
    ensures forall tx :: tx in txs ==>
              Fits(terms, {}, tx, false) && !Unpayable(terms.state.balance(tx.sender), terms.state.maxGas)(tx)
  {
    hide Fits, Unpayable;
    forall tx | tx in txs ensures Fits(terms, {}, tx, false) && !Unpayable(terms.state.balance(tx.sender), terms.state.maxGas)(tx) {
      PlainFits(terms, tx);
    }
  }

  lemma OutOfReach(config: Config, s: Stock, a: Tx, b: Tx, c: Tx)
    requires Capacity(config) == 2 && s.all == {a, b} && a != b && s.locals == {} && |s.heap| == 2 && Covered(s)
    requires a.size == b.size == 128 * KIB && c.size == KIB && a.price < c.price
    ensures Unallocatable(config, s, c, false) && !TurnedAway(config, s, c, false)
  {
    hide NumSlots, Slots, Heap.IsHeap, AfterStale;
    var stales :| Covers(s.all, s.heap, stales);
    var left := SeenCovers(s.heap, s.all, stales);
    TwoSlots(a, b);
    PlainSlots(a);
    PlainSlots(b);
    PlainSlots(c);
    assert a in s.all;
  }

  /** A refused replacement costs another account its transaction: the pool is full, so the cheapest
      is discarded first, and only then does the replacement fail to outbid. */
  method RefusedExample() returns (pool: TxPool, before: set<Tx>, r: Outcome)
    ensures pool.Valid() && |before| == Capacity(pool.config) == 2
    ensures r == Rejected(ReplaceUnderpriced) && pool.all.all < before && |pool.all.all| == 1
  {
    hide Fits, Consistent, Covers, Slots, Items, Contiguous, Payable;
    var config := Config(10, 1, 1, 1, 1);
    var state := Chain((a: Address) => 0);
    var a, b, c := Plain(1, 1, 0, 1, KIB), Plain(2, 2, 0, 10, KIB), Plain(3, 2, 0, 10, KIB);
    AllFit(Terms(config, state, 0), [a, b, c]);
    assert c in [a, b, c];
    pool := Entered(config, state, 0, [a, b]);
    Two(a, b);
    before := pool.all.all;
    r := Refuse(pool, a, b, c);
  }

  method Refuse(pool: TxPool, a: Tx, b: Tx, c: Tx) returns (r: Outcome)
    requires pool.Valid() && pool.all.all == {a, b} && pool.locals == {} && Capacity(pool.config) == 2
    requires a.sender != b.sender == c.sender && b.nonce == c.nonce && b != c && a.price < b.price && a.price < c.price
    requires a.size == b.size == c.size == KIB && !ListState.Replaces(c, b, pool.config.priceBump)
    requires c.gas <= Intrinsic.MAX_UINT64 && Fits(pool.Rules(), {}, c, false)
    modifies pool, pool.all, pool.priced, pool.pendingNonces
    ensures pool.Valid() && r == Rejected(ReplaceUnderpriced) && pool.all.all == {b} && |{a, b}| == 2
  {
    hide Fits, NumSlots, Slots, Consistent, Covers, Step, Spared, OnlyCheapRemotesLeft, Trims, SameKeys, Items, SlotsNeeded, NoDearer, Holders,
         Placed, ListState.Replaces, Contiguous, Payable;
    OneShort(pool.config, a, b, c);
    r := pool.Add(c, false);
    FullStep(pool.Rules(), old(pool.Held()), c, r, pool.Held(), a);
    Outbid(pool.config.priceBump, a, b, c, r, pool.all.all);
  }

  lemma Outbid(bump: nat, a: Tx, b: Tx, c: Tx, r: Outcome, after: set<Tx>)
    requires Placed(bump, {a, b} - {a}, c, r, after) && a != b
    requires b.sender == c.sender && b.nonce == c.nonce && !ListState.Replaces(c, b, bump)
    ensures r == Rejected(ReplaceUnderpriced) && after == {b} && after < {a, b}
  {
    hide ListState.Replaces;
    assert {a, b} - {a} == {b};
    assert b in Holders({b}, c);
  }

  /** Two transactions of one slot each fill a pool of capacity two, and one slot is missing for a third. */
  lemma OneShort(config: Config, a: Tx, b: Tx, c: Tx)
    requires Capacity(config) == 2 && a != b && a.size == b.size == c.size == KIB && a.price < b.price
    ensures |{a, b}| == 2 && SlotsNeeded(config, {a, b}, c) == 1
    ensures forall t :: t in {a, b} && t != a ==> !NoDearer(t, a)
  {
    hide NumSlots, Slots;
    TwoSlots(a, b);
    PlainSlots(a);
    PlainSlots(b);
    PlainSlots(c);
  }

  /** The lowest nonces include the lowest. */
  lemma LowestFirst(items: NonceMap, k: nat, n: nat)
    requires 0 < k && n in items && forall m :: m in items ==> n <= m
    ensures n in Lowest(items, k) && Lowest(items, k)[n] == items[n]
  {
    LowestFacts(items, k);
    var low := Lowest(items, k);
    assert |low| > 0;
    var m :| m in low;
  }

  /** A queued transaction with the chain's next nonce becomes pending and survives the truncation. */
  lemma NextIsPending(pool: TxPool, p0: Lists, q0: Lists, all0: set<Tx>, mid: Lists, midQueue: Lists, level: nat, tx: Tx)
    requires Consistent(p0, q0, all0, {}) && tx in all0 && Items(p0, tx.sender) == map[] && tx.nonce == pool.state.nonce(tx.sender)
    requires !Unpayable(pool.state.balance(tx.sender), pool.state.maxGas)(tx)
    requires pool.PromotedTo(tx.sender, p0, q0, tx.nonce, mid, midQueue)
    requires Fair(mid, pool.pending, pool.locals, pool.config.accountSlots, pool.config.globalSlots, level)
    ensures Has(pool.pending, tx)
  {
    hide Consistent, Promote, Total, Lowest, Unpayable, ListState.Valid;
    var b := tx.sender;
    NonceTells(p0, q0, all0, tx);
    PromoteNext(q0[b], tx.nonce, pool.state.balance(b), pool.state.maxGas, pool.Limit(b));
    PromoteParts(q0[b], tx.nonce, pool.state.balance(b), pool.state.maxGas, tx.nonce, pool.Limit(b));
    assert Holds(Items(mid, b), tx);
    LowestFirst(Items(mid, b), level, tx.nonce);
  }

  /** Promotes the given transactions, one per account and each the account's next. */
  method MakePending(pool: TxPool, txs: seq<Tx>)
    requires pool.Valid() && pool.all.all == Elements(txs) && Senders(txs)
    requires forall tx :: tx in txs ==>
               tx.nonce == pool.state.nonce(tx.sender) && !Unpayable(pool.state.balance(tx.sender), pool.state.maxGas)(tx)
    requires forall b :: Items(pool.pending, b) == map[] && pool.pendingNonces.Nonce(b) == pool.state.nonce(b)
    modifies pool, pool.all, pool.priced, pool.pendingNonces
    ensures pool.Valid() && pool.Rules() == old(pool.Rules()) && pool.locals == old(pool.locals) && pool.pendingNonces == old(pool.pendingNonces)
    ensures pool.all.all == Elements(txs) && forall tx :: tx in txs ==> Has(pool.pending, tx)
  {
    hide Consistent, ListsOk, Covers, Slots, Items, Fair, Total, Evicted, Restarts, Gapless, Has, Unpayable, Elements, Contiguous, Payable;
    pool.ValidFacts();
    var dirty := seq(|txs|, i requires 0 <= i < |txs| => txs[i].sender);
    ghost var t := pool.RunReorg(Unmoved, dirty);
    forall tx | tx in txs ensures Has(pool.pending, tx) {
      var i :| 0 <= i < |txs| && txs[i] == tx;
      assert dirty[i] == tx.sender;
      InElements(txs, tx);
      NextIsPending(pool, old(pool.pending), old(pool.queue), old(pool.all.all), t.mid, t.midQueue, t.level, tx);
    }
    pool.ValidFacts();
    PendingPooled(pool.pending, pool.queue, pool.all.all, txs);
  }

  lemma InElements(txs: seq<Tx>, tx: Tx)
    requires tx in txs
    ensures tx in Elements(txs)
  {
  }

  /** A new pool in which the given transactions, one per account and each the account's next, are
      pending. */
  method Settled(config: Config, state: ChainState, gasPrice: nat, txs: seq<Tx>) returns (pool: TxPool)
    requires |txs| <= Capacity(config) && Senders(txs)
    requires forall i :: 0 <= i < |txs| ==> txs[i].gas <= Intrinsic.MAX_UINT64 && Fits(Terms(config, state, gasPrice), {}, txs[i], false)
    requires forall tx :: tx in txs ==> tx.nonce == state.nonce(tx.sender) && !Unpayable(state.balance(tx.sender), state.maxGas)(tx)
    ensures fresh(pool) && fresh(pool.all) && fresh(pool.priced) && fresh(pool.pendingNonces)
    ensures pool.Valid() && pool.Rules() == Terms(config, state, gasPrice) && pool.locals == {}
    ensures pool.all.all == Elements(txs) && forall tx :: tx in txs ==> Has(pool.pending, tx)
  {
    hide Fits, Contiguous, Payable, Consistent, Covers, Slots, Items, Has, Unpayable;
    pool := Entered(config, state, gasPrice, txs);
    forall b ensures pool.pendingNonces.Nonce(b) == state.nonce(b) {
      assert pool.SteadyAt(b) && Items(pool.pending, b) == map[];
      NoneIsNext(state.nonce(b), pool.pendingNonces.Nonce(b));
    }
    MakePending(pool, txs);
  }

  lemma NoneIsNext(nonce: nat, virtual: nat)
    requires Contiguous(map[], nonce, virtual)
    ensures virtual == nonce
  {
    var none: NonceMap := map[];
    assert nonce < virtual ==> nonce in none;
  }

  lemma PendingPooled(p: Lists, q: Lists, all: set<Tx>, txs: seq<Tx>)
    requires Consistent(p, q, all, {}) && (forall tx :: tx in txs ==> Has(p, tx)) && all <= Elements(txs)
    ensures all == Elements(txs)
  {
    hide Has;
  }

  /** A pending nonce belongs to a pooled transaction of the account. */
  lemma PendingTx(p: Lists, q: Lists, all: set<Tx>, b: Address, n: nat)
    requires Consistent(p, q, all, {}) && n in Items(p, b)
    ensures var tx := Items(p, b)[n]; tx in all && tx.sender == b && tx.nonce == n
  {
    assert ListOk(p[b], b, true);
    assert Has(p, p[b].items[n]);
  }

  lemma QueuedTx(p: Lists, q: Lists, all: set<Tx>, b: Address, n: nat)
    requires Consistent(p, q, all, {}) && n in Items(q, b)
    ensures var tx := Items(q, b)[n]; tx in all && tx.sender == b && tx.nonce == n
  {
    assert ListOk(q[b], b, false);
    assert Has(q, q[b].items[n]);
  }

  /** A virtual nonce falls behind the chain's: the new head holds the pending transaction of account
      1, and reinjecting a dear one into the full pool discards it. */
  method LagExample() returns (pool: TxPool)
    ensures pool.Valid() && pool.state.nonce(1) == 1 && pool.LaggingAt(1)
  {
    hide Fits, Unpayable, NumSlots, Slots, Consistent, Covers, Contiguous, Payable, Items, Has, Fair, Total, Evicted, Gapless, SlotsNeeded, Capacity,
         NoDearer, Restarts, SameKeys;
    var config := Config(10, 1, 1, 1, 1);
    var state, next := Chain((x: Address) => 0), Chain((x: Address) => if x == 1 then 1 else 0);
    var a, b, c := Plain(1, 1, 0, 1, KIB), Plain(2, 2, 0, 5, KIB), Plain(3, 3, 0, 5, KIB);
    CapacityTwo(config);
    AllFit(Terms(config, state, 0), [a, b]);
    AllFit(Terms(config, next, 0), [c]);
    assert c in [c];
    pool := Settled(config, state, 0, [a, b]);
    Two(a, b);
    OneShort(config, a, b, c);
    pool.ValidFacts();
    assert Has(pool.pending, a);
    HasNonce(pool.pending, a);
    ghost var held, before := pool.Held(), pool.pending;
    ghost var t := pool.RunReorg(Moved(NewHead(next, [c])), []);
    LagStep(t.start, NewHead(next, [c]), Terms(config, next, 0), held, before, a, b, c);
    assert 0 in Items(before, 1) && 0 !in Items(t.start.pending, 1) && 0 < pool.state.nonce(1);
  }

  lemma CapacityTwo(config: Config)
    requires config.globalSlots == config.globalQueue == 1
    ensures Capacity(config) == 2
  {
  }

  lemma HasNonce(p: Lists, tx: Tx)
    requires Has(p, tx)
    ensures tx.nonce in Items(p, tx.sender)
  {
  }

  lemma LagStep(start: Restart, head: NewHead, terms: Terms, held: Stock, before: Lists, a: Tx, b: Tx, c: Tx)
    requires Restarts(start, head, terms, held, before) && head.reinject == [c] && held.all == {a, b} && held.locals == {}
    requires Capacity(terms.config) == |{a, b}| && SlotsNeeded(terms.config, {a, b}, c) == 1 && Fits(terms, {}, c, false)
    requires a.price < c.price && forall t :: t in {a, b} && t != a ==> !NoDearer(t, a)
    requires a.sender != b.sender && c.sender != a.sender && c.sender != b.sender
    ensures a.nonce !in Items(start.pending, a.sender)
  {
    hide Consistent, Trims, Step, SlotsNeeded, Capacity, NoDearer, Fits, Items, ListState.Replaces;
    assert Step(terms, start.stocks[0], head.reinject[0], false, start.outcomes[0], start.stocks[1]);
    FullStep(terms, held, c, start.outcomes[0], start.stocks[1], a);
    if a.nonce in Items(start.pending, a.sender) {
      PendingTx(start.pending, start.queue, start.stocks[1].all, a.sender, a.nonce);
    }
  }

  /** A new head leaves a gap: nonce 7 is pending, the chain falls back to nonce 5, and of the two
      transactions that come back the second is below the price floor. */
  method GapExample() returns (pool: TxPool)
    ensures pool.Valid() && pool.state.nonce(1) == 5 && Items(pool.pending, 1).Keys == {5, 7}
  {
    hide Fits, Unpayable, Consistent, Covers, Slots, Items, Has;
    var config := Config(10, 4, 4, 4, 4);
    var state, next := Chain((x: Address) => if x == 1 then 7 else 0), Chain((x: Address) => if x == 1 then 5 else 0);
    var a, b, c := Plain(1, 1, 7, 1, KIB), Plain(2, 1, 5, 1, KIB), Plain(3, 1, 6, 0, KIB);
    AllFit(Terms(config, state, 1), [a]);
    AllFit(Terms(config, next, 1), [a, b]);
    assert a in [a] && a in [a, b] && b in [a, b];
    TooCheap(Terms(config, next, 1), c);
    pool := Settled(config, state, 1, [a]);
    assert pool.all.all == {a};
    HasNonce(pool.pending, a);
    FallBack(pool, NewHead(next, [b, c]), a, b, c);
  }

  /** Account 1 has nonce 7 pending; the head takes it back to nonce 5 and returns that one only. */
  method FallBack(pool: TxPool, head: NewHead, a: Tx, b: Tx, c: Tx)
    requires pool.Valid() && pool.all.all == {a} && pool.locals == {} && a.nonce in Items(pool.pending, 1)
    requires a.sender == b.sender == 1 && a.nonce == 7 && b.nonce == 5 && c != a && c != b
    requires head.reinject == [b, c] && head.state.nonce(1) == 5 && b.gas <= Intrinsic.MAX_UINT64 && c.gas <= Intrinsic.MAX_UINT64
    requires !Unpayable(head.state.balance(1), head.state.maxGas)(a) && !Unpayable(head.state.balance(1), head.state.maxGas)(b)
    requires var terms := Terms(pool.config, ResetState(head, pool.state), pool.gasPrice);
             Fits(terms, {}, b, false) && !Fits(terms, {}, c, false)
    requires Capacity(pool.config) >= 3 && pool.config.accountSlots >= 2
    modifies pool, pool.all, pool.priced, pool.pendingNonces
    ensures pool.Valid() && pool.state.nonce(1) == 5 && Items(pool.pending, 1).Keys == {5, 7}
  {
    hide Fits, Unpayable, Consistent, ListsOk, Covers, Slots, Contiguous, Payable, Items, Has, Fair, Total, Evicted, Gapless, Restarts, SameKeys,
         Capacity, Submitted;
    ghost var terms, held, before := Terms(pool.config, ResetState(head, pool.state), pool.gasPrice), pool.Held(), pool.pending;
    pool.ValidFacts();
    OnlyNonce(pool.pending, pool.queue, a);
    ghost var t := pool.RunReorg(Moved(head), []);
    GapStep(t.start, head, terms, held, before, a, b, c);
    KeysAt(before, t.start.pending, 1);
    GapLists(pool, t.start, a, b);
    GapStays(t.mid, t.midQueue, t.pooled, pool.pending, pool.locals, pool.config.accountSlots, pool.config.globalSlots, t.level, a, b);
    assert pool.ExecutableAt(1);
    assert Contiguous(Items(t.start.pending, 1), 7, 8) && !Gapless(Items(t.mid, 1), pool.state.nonce(1));
    GapNonces(Items(pool.pending, 1));
  }

  lemma KeysAt(p0: Lists, p: Lists, b: Address)
    requires SameKeys(p0, p)
    ensures Items(p, b).Keys == Items(p0, b).Keys
  {
  }

  lemma OnlyNonce(p: Lists, q: Lists, a: Tx)
    requires Consistent(p, q, {a}, {}) && a.nonce in Items(p, a.sender)
    ensures Items(p, a.sender).Keys == {a.nonce}
  {
    hide Consistent, Items;
    forall n | n in Items(p, a.sender) ensures n == a.nonce {
      PendingTx(p, q, {a}, a.sender, n);
    }
  }

  lemma TooCheap(terms: Terms, tx: Tx)
    requires tx.price < terms.gasPrice
    ensures !Fits(terms, {}, tx, false)
  {
  }

  /** What reinjecting b and c into a pool of a leaves: a is still pending, b is queued, c is refused. */
  lemma GapStep(start: Restart, head: NewHead, terms: Terms, held: Stock, before: Lists, a: Tx, b: Tx, c: Tx)
    requires Restarts(start, head, terms, held, before) && head.reinject == [b, c] && held.all == {a} && held.locals == {}
    requires Capacity(terms.config) > 1 && Fits(terms, {}, b, false) && !Fits(terms, {}, c, false)
    requires a.nonce != b.nonce && c != a && c != b
    ensures start.stocks[2].all == {a, b} && Consistent(start.pending, start.queue, {a, b}, {})
  {
    hide Consistent, Trims, Step, Capacity, Fits, Items;
    assert Step(terms, start.stocks[0], head.reinject[0], false, start.outcomes[0], start.stocks[1]);
    assert Step(terms, start.stocks[1], head.reinject[1], false, start.outcomes[1], start.stocks[2]);
    assert Holders({a}, b) == {};
    FreshStep(terms, held, b, start.outcomes[0], start.stocks[1]);
    assert {a} + {b} == {a, b};
    RefusedStep(terms, start.stocks[1], c, start.outcomes[1], start.stocks[2]);
  }

  lemma RefusedStep(terms: Terms, s: Stock, tx: Tx, r: Outcome, s': Stock)
    requires Step(terms, s, tx, false, r, s') && tx !in s.all && !Fits(terms, s.locals, tx, false)
    ensures s'.all == s.all
  {
    hide Fits, FirstBroken, TurnedAway, Unallocatable, Discards;
  }

  /** From such lists the reset is not safe. */
  lemma GapLists(pool: TxPool, start: Restart, a: Tx, b: Tx)
    requires Consistent(start.pending, start.queue, {a, b}, {}) && Items(start.pending, 1).Keys == {7}
    requires a.sender == b.sender == 1 && a.nonce == 7 && b.nonce == 5 && start.nonces.At(1) == pool.state.nonce(1) == 5
    requires !Unpayable(pool.state.balance(1), pool.state.maxGas)(a) && !Unpayable(pool.state.balance(1), pool.state.maxGas)(b)
    ensures Contiguous(Items(start.pending, 1), 7, 8) && !pool.SafeFrom(start.pending, start.queue, start.nonces, 1, 7)
  {
    hide Consistent, Promote, Unpayable, ListState.Valid;
    NonceTells(start.pending, start.queue, {a, b}, b);
    var l := start.queue[1];
    PromoteNext(l, 5, pool.state.balance(1), pool.state.maxGas, pool.Limit(1));
    PromoteParts(l, 5, pool.state.balance(1), pool.state.maxGas, 5, pool.Limit(1));
    if 6 in l.items {
      QueuedTx(start.pending, start.queue, {a, b}, 1, 6);
    }
    PendingTx(start.pending, start.queue, {a, b}, 1, 7);
    assert forall n :: n in Items(start.pending, 1) <==> n in {7};
  }

  /** Two transactions are within the guaranteed slots, so that truncation leaves them. */
  lemma GapStays(mid: Lists, midQueue: Lists, pooled: set<Tx>, p: Lists, locals: set<Address>, slots: Positive, limit: nat, level: nat, a: Tx, b: Tx)
    requires Consistent(mid, midQueue, pooled, {}) && pooled <= {a, b} && a.nonce == 7 && b.nonce == 5
    requires Fair(mid, p, locals, slots, limit, level) && slots >= 2
    ensures Items(p, 1) == Items(mid, 1) && Items(p, 1).Keys <= {5, 7}
  {
    hide Consistent, Total, Lowest;
    forall n | n in Items(mid, 1) ensures n in {5, 7} {
      PendingTx(mid, midQueue, pooled, 1, n);
    }
    SubsetSize(Items(mid, 1).Keys, {5, 7});
    if 1 in mid {
      LowestFacts(mid[1].items, level);
      LowestAll(mid[1].items, level);
    }
  }

  lemma LowestAll(items: NonceMap, k: nat)
    requires |items| <= k
    ensures Lowest(items, k) == items
  {
  }

  lemma GapNonces(items: NonceMap)
    requires items.Keys <= {5, 7} && !Gapless(items, 5) && (items != map[] ==> 5 in items)
    ensures items.Keys == {5, 7}
  {
    if 5 !in items {
      assert Contiguous(items, 5, 5);
    } else if 7 !in items {
      assert Contiguous(items, 5, 6);
    }
  }

  /** A new head passes over what continues the pending nonces: nonce 0 is pending and nonce 1 queued
      behind it, both payable, and the head that arrives changes nothing for the account. */
  method PassedOverExample() returns (pool: TxPool, r: Outcome)
    ensures pool.Valid() && r == Added(false) && pool.state.nonce(1) == 0 && Items(pool.pending, 1).Keys == {0}
  {
    hide Fits, Unpayable, Consistent, Covers, Slots, Items, Has, Step, Trims, SameKeys, OnlyCheapRemotesLeft, Spared;
    var config := Config(10, 4, 4, 4, 4);
    var state := Chain((x: Address) => 0);
    var a, b := Plain(1, 1, 0, 1, KIB), Plain(2, 1, 1, 1, KIB);
    AllFit(Terms(config, state, 0), [a, b]);
    assert a in [a, b] && b in [a, b];
    pool := Settled(config, state, 0, [a]);
    assert pool.all.all == {a} && a in [a];
    pool.ValidFacts();
    HasNonce(pool.pending, a);
    OnlyNonce(pool.pending, pool.queue, a);
    ghost var before, held := pool.pending, pool.Held();
    assert Holders({a}, b) == {};
    r := pool.Add(b, false);
    FreshStep(pool.Rules(), held, b, r, pool.Held());
    KeysAt(before, pool.pending, 1);
    PassOver(pool, a, b);
  }

  /** Account 1 has nonce 0 pending; a head that leaves its nonce at 0 leaves just that pending. */
  method PassOver(pool: TxPool, a: Tx, b: Tx)
    requires pool.Valid() && pool.all.all == {a, b} && Items(pool.pending, 1).Keys == {0} && pool.state.nonce(1) == 0
    requires a.sender == b.sender == 1 && a.nonce == 0 && b.nonce == 1
    requires !Unpayable(pool.state.balance(1), pool.state.maxGas)(a)
    modifies pool, pool.all, pool.priced, pool.pendingNonces
    ensures pool.Valid() && pool.state.nonce(1) == 0 && Items(pool.pending, 1).Keys == {0}
  {
    hide Unpayable, Consistent, ListsOk, Covers, Slots, Contiguous, Payable, Items, Has, Fair, Total, Evicted, Gapless, SameKeys, Capacity,
         Rebuilt;
    ghost var before, held := pool.pending, pool.Held();
    ghost var t := pool.RunReorg(Moved(NewHead(pool.state, [])), []);
    KeysAt(before, t.start.pending, 1);
    assert t.start.stocks[0] == held;
    assert pool.RebuiltAt(1, t.start.pending, t.start.queue, t.start.nonces.At(1), t.mid, t.midQueue);
    Alone(t.start.pending, t.start.queue, Bar(0, pool.state.balance(1), pool.state.maxGas), pool.Limit(1), Items(t.mid, 1), Items(t.midQueue, 1), a, b);
    OneStays(t.mid, pool.pending, pool.locals, pool.config.accountSlots, pool.config.globalSlots, t.level);
  }

  lemma Alone(p: Lists, q: Lists, bar: Bar, limit: Option<nat>, p': NonceMap, q': NonceMap, a: Tx, b: Tx)
    requires Consistent(p, q, {a, b}, {}) && Items(p, 1).Keys == {0} && bar.nonce == 0
    requires a.sender == b.sender == 1 && a.nonce == 0 && b.nonce == 1 && !Unpayable(bar.balance, bar.maxGas)(a)
    requires Rebuilt(Items(p, 1), Items(q, 1), 0, bar, limit, p', q')
    ensures p'.Keys == {0}
  {
    hide Consistent, Items, Unpayable, Rebuilt;
    PendingTx(p, q, {a, b}, 1, 0);
    BothApart(p, q, {a, b});
    forall n: nat ensures n in p' <==> n == 0 {
      assert 0 in Items(p, 1).Keys;
      PendingStays(Items(p, 1), Items(q, 1), bar, limit, p', q', n);
      assert n in Items(p, 1) <==> n in Items(p, 1).Keys;
    }
  }

  lemma BothApart(p: Lists, q: Lists, all: set<Tx>)
    requires Consistent(p, q, all, {})
    ensures Items(p, 1).Keys !! Items(q, 1).Keys
  {
  }

  lemma OneStays(mid: Lists, p: Lists, locals: set<Address>, slots: Positive, limit: nat, level: nat)
    requires Items(mid, 1).Keys == {0} && Fair(mid, p, locals, slots, limit, level)
    ensures Items(p, 1).Keys == {0}
  {
    hide Total, Lowest;
    assert |Items(mid, 1).Keys| == 1;
    LowestAll(mid[1].items, level);
  }
}
