/** How the pool judges a submission, told from the rules in force and from what the pool holds
    (core/tx_pool.go). */
module Submission {
  import opened Collections
  import opened TxTypes
  import opened List
  import opened Priced
  import Heap
  import Intrinsic

  datatype Config = Config(priceBump: nat, accountSlots: Positive, globalSlots: Positive,
                           accountQueue: Positive, globalQueue: Positive)

  /** The chain state the pool validates against. */
  datatype ChainState = ChainState(nonce: Address -> nat, balance: Address -> int, maxGas: nat,
                                   eip2: bool, eip2028: bool)

  /** What a submission is judged by. */
  datatype Terms = Terms(config: Config, state: ChainState, gasPrice: nat)

  /** What the pool holds: the transactions, the price heap over them and the local accounts. */
  datatype Stock = Stock(all: set<Tx>, heap: seq<Tx>, locals: set<Address>)

  datatype Error =
    | AlreadyKnown | OversizedData | NegativeValue | GasLimit | Underpriced | NonceTooLow
    | InsufficientFunds | IntrinsicGasTooLow | GasUintOverflow | ReplaceUnderpriced | AllocationFailed

  datatype Outcome = Added(replaced: bool) | Rejected(error: Error)

  /** A remote transaction no dearer than anything pooled. */
  ghost predicate Cheap(tx: Tx, all: set<Tx>, locals: set<Address>) {
    tx.sender !in locals && all != {} && forall t :: t in all ==> tx.price <= t.price
  }

  /** Apart from transactions with the account and nonce of tx, what left the pool is remote and
      no dearer in heap order than any remote transaction that stayed. */
  ghost predicate OnlyCheapRemotesLeft(before: set<Tx>, after: set<Tx>, tx: Tx, locals: set<Address>) {
    forall t :: t in before && t !in after && !(t.sender == tx.sender && t.nonce == tx.nonce) ==>
                  && t.sender !in locals
                  && forall u :: u in before && u in after && u.sender !in locals ==> NoDearer(t, u)
  }

  lemma NothingLeft(before: set<Tx>, tx: Tx, locals: set<Address>)
    ensures OnlyCheapRemotesLeft(before, before, tx, locals)
  {
  }

  lemma DiscardLeft(before: set<Tx>, drop: seq<Tx>, tx: Tx, locals: set<Address>)
    requires exists wanted :: Discarded(before, drop, wanted, locals)
    ensures OnlyCheapRemotesLeft(before, before - Elements(drop), tx, locals)
  {
  }

  /** A discard that leaves all transactions in place dropped nothing. */
  lemma NoneDropped(all: set<Tx>, drop: seq<Tx>, wanted: int, locals: set<Address>)
    requires Discarded(all, drop, wanted, locals)
    ensures all - Elements(drop) == all ==> drop == []
  {
    if drop != [] {
      assert drop[0] in all && drop[0] in Elements(drop);
    }
  }

  /** Discarding makes room for a request, given the heap and the pool it works on. */
  ghost predicate RoomIn(heap: seq<Tx>, all: set<Tx>, locals: set<Address>, slots: int) {
    RoomFor(Candidates(heap, all, locals), Wanted(heap, slots, locals), slots)
  }

  /** Freeing the missing slots, or all that is remote, is having room afterwards. */
  lemma RoomLeft(all: set<Tx>, drop: seq<Tx>, wanted: int, capacity: nat, tx: Tx, locals: set<Address>)
    requires Discarded(all, drop, wanted, locals)
    ensures RoomMade(all, Elements(drop), Slots(all) - capacity + NumSlots(tx), locals) <==>
            || Slots(all - Elements(drop)) + NumSlots(tx) <= capacity
            || forall t :: t in all - Elements(drop) ==> t.sender in locals
  {
    hide Slots, NumSlots;
    SlotsMinus(all, Elements(drop));
  }

  function Capacity(config: Config): nat {
    config.globalSlots + config.globalQueue
  }

  /** The size, value, gas, price, nonce, funds and intrinsic gas rules. */
  ghost predicate Fits(terms: Terms, locals: set<Address>, tx: Tx, local: bool) {
    var state := terms.state;
    && tx.size <= TX_MAX_SIZE && 0 <= tx.value && tx.gas <= state.maxGas
    && (local || tx.sender in locals || terms.gasPrice <= tx.price)
    && state.nonce(tx.sender) <= tx.nonce
    && tx.Cost() <= state.balance(tx.sender)
    && Intrinsic.ExactGas(tx.data, tx.create, state.eip2, state.eip2028) <= tx.gas
  }

  /** The rule an error names is broken. */
  ghost predicate Breaks(terms: Terms, locals: set<Address>, tx: Tx, local: bool, e: Error) {
    var state := terms.state;
    var exact := Intrinsic.ExactGas(tx.data, tx.create, state.eip2, state.eip2028);
    match e
    case OversizedData => tx.size > TX_MAX_SIZE
    case NegativeValue => tx.value < 0
    case GasLimit => tx.gas > state.maxGas
    case Underpriced => !local && tx.sender !in locals && tx.price < terms.gasPrice
    case NonceTooLow => tx.nonce < state.nonce(tx.sender)
    case InsufficientFunds => tx.Cost() > state.balance(tx.sender)
    case GasUintOverflow => exact > Intrinsic.MAX_UINT64
    case IntrinsicGasTooLow => tx.gas < exact <= Intrinsic.MAX_UINT64
    case _ => false
  }

  /** When a rule is looked at. */
  function Turn(e: Error): nat {
    match e
    case OversizedData => 1
    case NegativeValue => 2
    case GasLimit => 3
    case Underpriced => 4
    case NonceTooLow => 5
    case InsufficientFunds => 6
    case GasUintOverflow => 7
    case IntrinsicGasTooLow => 7
    case _ => 0
  }

  /** An error names the first rule that is broken. */
  ghost predicate FirstBroken(terms: Terms, locals: set<Address>, tx: Tx, local: bool, e: Error) {
    Breaks(terms, locals, tx, local, e) && forall other :: Turn(other) < Turn(e) ==> !Breaks(terms, locals, tx, local, other)
  }

  /** How many slots are missing for a transaction. */
  ghost function SlotsNeeded(config: Config, all: set<Tx>, tx: Tx): int {
    Slots(all) - Capacity(config) + NumSlots(tx)
  }

  /** The price heap as making room finds it: looking at a remote submission's price has popped the
      stale entries on top. */
  function HeapSeen(s: Stock, tx: Tx, local: bool): seq<Tx> {
    if local || tx.sender in s.locals then s.heap else AfterStale(s.heap, s.all)
  }

  /** A full pool turns away a remote submission that no pooled transaction is cheaper than. */
  ghost predicate TurnedAway(config: Config, s: Stock, tx: Tx, local: bool) {
    Capacity(config) <= |s.all| && !local && Cheap(tx, s.all, s.locals)
  }

  /** Making room fails: no local accounts, and more slots to free than heap entries. */
  ghost predicate Unallocatable(config: Config, s: Stock, tx: Tx, local: bool) {
    && Capacity(config) <= |s.all| && !TurnedAway(config, s, tx, local)
    && s.locals == {} && SlotsNeeded(config, s.all, tx) > |HeapSeen(s, tx, local)|
  }

  /** Making room succeeds. */
  ghost predicate RoomAhead(config: Config, s: Stock, tx: Tx, local: bool) {
    RoomIn(HeapSeen(s, tx, local), s.all, s.locals, SlotsNeeded(config, s.all, tx))
  }

  /** The transaction fits into the capacity, or only local transactions are in its way. */
  ghost predicate HasRoom(config: Config, all: set<Tx>, locals: set<Address>, tx: Tx) {
    Slots(all) + NumSlots(tx) <= Capacity(config) || forall t :: t in all ==> t.sender in locals
  }

  /** What a full pool gives up for a transaction, before it tries to insert it. */
  ghost function Discards(config: Config, s: Stock, tx: Tx, local: bool): set<Tx> {
    if |s.all| < Capacity(config) then {} else
    var heap := HeapSeen(s, tx, local);
    Elements(Enough(Candidates(heap, s.all, s.locals), Wanted(heap, SlotsNeeded(config, s.all, tx), s.locals)))
  }

  /** Nothing has to go, or nothing can. */
  ghost predicate Spared(config: Config, s: Stock) {
    |s.all| < Capacity(config) || forall t :: t in s.all ==> t.sender in s.locals
  }

  /** Who holds the account and nonce of a transaction. */
  ghost function Holders(all: set<Tx>, tx: Tx): set<Tx> {
    set t | t in all && t.sender == tx.sender && t.nonce == tx.nonce
  }

  /** The outcome of a submission and the transactions it leaves. A known one changes nothing; one
      that breaks a rule is refused under a rule it breaks; a full pool turns it away, fails to
      allocate, or discards cheap ones. Only then is it compared with the holder of its nonce. */
  ghost predicate Judged(terms: Terms, s: Stock, tx: Tx, local: bool, r: Outcome, after: set<Tx>) {
    if tx in s.all then r == Rejected(AlreadyKnown) && after == s.all
    else if !Fits(terms, s.locals, tx, local) then r.Rejected? && FirstBroken(terms, s.locals, tx, local, r.error) && after == s.all
    else if TurnedAway(terms.config, s, tx, local) then r == Rejected(Underpriced) && after == s.all
    else if Unallocatable(terms.config, s, tx, local) then r == Rejected(AllocationFailed) && after == s.all
    else Placed(terms.config.priceBump, s.all - Discards(terms.config, s, tx, local), tx, r, after)
  }

  /** What a submission makes the pool give up before it is inserted. */
  ghost function GivenUp(terms: Terms, s: Stock, tx: Tx, local: bool): set<Tx> {
    if tx in s.all || !Fits(terms, s.locals, tx, local) || TurnedAway(terms.config, s, tx, local) || Unallocatable(terms.config, s, tx, local) then {}
    else Discards(terms.config, s, tx, local)
  }

  /** A transaction enters the given ones, in place of the holder of its nonce, unless it fails to
      outbid it. */
  ghost predicate Placed(bump: nat, kept: set<Tx>, tx: Tx, r: Outcome, after: set<Tx>) {
    if exists t :: t in Holders(kept, tx) && !ListState.Replaces(tx, t, bump) then
      r == Rejected(ReplaceUnderpriced) && after == kept
    else
      r == Added(Holders(kept, tx) != {}) && after == kept - Holders(kept, tx) + {tx}
  }

  ghost predicate Covered(s: Stock) {
    exists stales :: Covers(s.all, s.heap, stales)
  }

  lemma {:induction false} SeenCovers(items: seq<Tx>, all: set<Tx>, stales: int) returns (left: int)
    requires Covers(all, items, stales)
    ensures Covers(all, AfterStale(items, all), left) && |AfterStale(items, all)| <= |items|
    decreases |items|
  {
    hide Heap.IsHeap, Heap.Rest;
    left := stales;
    if items != [] && items[0] !in all {
      var rest := Heap.Rest(items, PriceRank);
      Heap.RestSize(items, PriceRank);
      Heap.RestIsHeap(items, PriceRank);
      PopMembers(items, items[0], rest);
      left := SeenCovers(rest, all, stales - 1);
    }
  }

  lemma {:induction false} RemoteCounts(items: seq<Tx>, local: set<Address>, tx: Tx)
    requires tx in items && tx.sender !in local
    ensures RemoteEntries(items, local) > 0
    decreases |items|
  {
    var init := items[..|items| - 1];
    if tx != items[|items| - 1] {
      assert items == init + [items[|items| - 1]];
      RemoteCounts(init, local, tx);
    }
  }

  /** A discard takes pooled remote transactions, cheapest first. */
  lemma DiscardsCheap(config: Config, s: Stock, tx: Tx, local: bool)
    requires Covered(s)
    ensures var gone := Discards(config, s, tx, local);
            gone <= s.all && OnlyCheapRemotesLeft(s.all, s.all - gone, tx, s.locals)
  {
    hide Covers, Candidates, Enough, OnlyCheapRemotesLeft, Wanted, Slots, NumSlots;
    NothingLeft(s.all, tx, s.locals);
    assert s.all - {} == s.all;
    var stales :| Covers(s.all, s.heap, stales);
    var left := SeenCovers(s.heap, s.all, stales);
    if |s.all| >= Capacity(config) {
      var heap, slots := HeapSeen(s, tx, local), SlotsNeeded(config, s.all, tx);
      var wanted := Wanted(heap, slots, s.locals);
      EnoughDiscards(heap, s.all, if local || tx.sender in s.locals then stales else left, s.locals, wanted, slots);
      DiscardLeft(s.all, Enough(Candidates(heap, s.all, s.locals), wanted), tx, s.locals);
    }
  }

  /** A discard takes something unless nothing has to go or nothing can. */
  lemma DiscardsNone(config: Config, s: Stock, tx: Tx, local: bool)
    requires Covered(s)
    ensures Discards(config, s, tx, local) == {} <==> Spared(config, s)
  {
    hide Candidates, RemoteEntries, Slots, NumSlots, Heap.IsHeap, AfterStale;
    if |s.all| >= Capacity(config) {
      var stales :| Covers(s.all, s.heap, stales);
      var left := SeenCovers(s.heap, s.all, stales);
      SlotsAtLeastCount(s.all);
      var heap := HeapSeen(s, tx, local);
      var candidates := Candidates(heap, s.all, s.locals);
      CandidatesMembers(heap, s.all, s.locals);
      if candidates != [] {
        assert candidates[0] in candidates;
      }
      if !Spared(config, s) {
        var t :| t in s.all && t.sender !in s.locals;
        assert t in candidates;
        RemoteCounts(heap, s.locals, t);
        var wanted := Wanted(heap, SlotsNeeded(config, s.all, tx), s.locals);
        assert wanted > 0 && Enough(candidates, wanted)[0] == candidates[0];
        assert candidates[0] in Discards(config, s, tx, local);
      }
    }
  }

  /** A rejection leaves the pool as it was, except that a replacement refused by a full pool has
      already pushed out remote transactions. */
  lemma RejectionIff(terms: Terms, s: Stock, tx: Tx, local: bool, r: Outcome, after: set<Tx>)
    requires Covered(s) && Judged(terms, s, tx, local, r, after) && r.Rejected?
    ensures after == s.all <==> r != Rejected(ReplaceUnderpriced) || Spared(terms.config, s)
  {
    hide Fits, TurnedAway, Unallocatable, Discards, Spared, Covered;
    DiscardsNone(terms.config, s, tx, local);
    DiscardsCheap(terms.config, s, tx, local);
    var gone := Discards(terms.config, s, tx, local);
    assert s.all - gone == s.all ==> gone == {} by {
      if gone != {} {
        var t :| t in gone;
        assert t in s.all && t !in s.all - gone;
      }
    }
    assert gone == {} ==> s.all - gone == s.all;
  }

  /** Whatever the outcome: pooled exactly if added, nothing else enters, and besides the holder of
      its nonce only remote transactions leave, none dearer in heap order than a remote one kept. */
  lemma JudgedFacts(terms: Terms, s: Stock, tx: Tx, local: bool, r: Outcome, after: set<Tx>)
    requires Covered(s) && Judged(terms, s, tx, local, r, after)
    ensures after <= s.all + {tx} && (tx !in s.all ==> (r.Added? <==> tx in after))
    ensures OnlyCheapRemotesLeft(s.all, after, tx, s.locals)
    ensures |s.all| < Capacity(terms.config) ==> s.all - Holders(s.all, tx) <= after
  {
    hide Fits, FirstBroken, TurnedAway, Unallocatable, Discards, Covered, Placed, OnlyCheapRemotesLeft, Holders;
    NothingLeft(s.all, tx, s.locals);
    if tx !in s.all && Fits(terms, s.locals, tx, local) && !TurnedAway(terms.config, s, tx, local) && !Unallocatable(terms.config, s, tx, local) {
      DiscardsCheap(terms.config, s, tx, local);
      NothingGone(terms.config, s, tx, local);
      PlacedFacts(terms.config.priceBump, s.all, s.all - Discards(terms.config, s, tx, local), tx, s.locals, r, after);
    }
  }

  lemma PlacedFacts(bump: nat, before: set<Tx>, kept: set<Tx>, tx: Tx, locals: set<Address>, r: Outcome, after: set<Tx>)
    requires Placed(bump, kept, tx, r, after) && kept <= before && tx !in before && OnlyCheapRemotesLeft(before, kept, tx, locals)
    ensures after <= before + {tx} && (r.Added? <==> tx in after) && OnlyCheapRemotesLeft(before, after, tx, locals)
    ensures kept == before ==> before - Holders(before, tx) <= after
  {
    hide ListState.Replaces, NoDearer;
  }

  lemma NothingGone(config: Config, s: Stock, tx: Tx, local: bool)
    ensures |s.all| < Capacity(config) ==> Discards(config, s, tx, local) == {} && s.all - Discards(config, s, tx, local) == s.all
  {
  }

  /** One step of a series of submissions, from one stock to the next. */
  ghost predicate Step(terms: Terms, s: Stock, tx: Tx, local: bool, r: Outcome, s': Stock) {
    && Covered(s) && Judged(terms, s, tx, local, r, s'.all)
    && s.locals <= s'.locals <= s.locals + (if local && r.Added? then {tx.sender} else {})
    && (local && r == Added(false) ==> tx.sender in s'.locals)
    && (r == Added(false) && |s.all| < Capacity(terms.config) ==> multiset(s'.heap) == multiset(s.heap) + multiset{tx})
  }

  /** A series of submissions leads through the listed stocks. */
  ghost predicate Submitted(terms: Terms, txs: seq<Tx>, local: bool, outcomes: seq<Outcome>, stocks: seq<Stock>) {
    && |outcomes| == |txs| && |stocks| == |txs| + 1
    && forall i :: 0 <= i < |txs| ==> Step(terms, stocks[i], txs[i], local, outcomes[i], stocks[i + 1])
  }

  /** Remote submissions make no account local. */
  lemma {:induction false} SameLocals(terms: Terms, txs: seq<Tx>, outcomes: seq<Outcome>, stocks: seq<Stock>, k: nat)
    requires Submitted(terms, txs, false, outcomes, stocks) && k <= |txs|
    ensures stocks[k].locals == stocks[0].locals
  {
    hide Judged, Covered;
    if k > 0 {
      SameLocals(terms, txs, outcomes, stocks, k - 1);
      assert Step(terms, stocks[k - 1], txs[k - 1], false, outcomes[k - 1], stocks[k]);
    }
  }

  lemma SubmitNone(terms: Terms, local: bool, s: Stock)
    ensures Submitted(terms, [], local, [], [s])
  {
  }

  lemma SubmitOne(terms: Terms, txs: seq<Tx>, local: bool, outcomes: seq<Outcome>, stocks: seq<Stock>, tx: Tx, r: Outcome, next: Stock)
    requires Submitted(terms, txs, local, outcomes, stocks) && Step(terms, stocks[|txs|], tx, local, r, next)
    ensures Submitted(terms, txs + [tx], local, outcomes + [r], stocks + [next])
  {
    hide Step;
    var txs', outcomes', stocks' := txs + [tx], outcomes + [r], stocks + [next];
    forall i | 0 <= i < |txs'| ensures Step(terms, stocks'[i], txs'[i], local, outcomes'[i], stocks'[i + 1]) {
      assert i < |txs| ==> Step(terms, stocks[i], txs[i], local, outcomes[i], stocks[i + 1]);
    }
  }
}
