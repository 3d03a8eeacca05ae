/** Which transactions a new head returns to the pool (core/tx_pool.go, the first part of reset). */
module Reinjection {
  import opened Collections
  import opened Chain
  import opened Reorg

  const MAX_DEPTH := 64

  datatype Walk = Found(txs: seq<nat>) | GaveUp

  function Distance(a: nat, b: nat): nat {
    if a <= b then b - a else a - b
  }

  /** Whether the two chains are compared at all. */
  predicate Compared(oldHead: Block, newHead: Block) {
    !(newHead.Child? && newHead.parent == oldHead) && Distance(Number(oldHead), Number(newHead)) <= MAX_DEPTH
  }

  /** Chains are compared unless the new head extends the old one or more than sixty-four heights lie
      between them. */
  lemma ComparedIff(oldHead: Block, newHead: Block)
    ensures Compared(oldHead, newHead) <==>
              && ParentOf(newHead) != Some(oldHead)
              && Number(oldHead) <= Number(newHead) + 64 && Number(newHead) <= Number(oldHead) + 64
  {
  }

  /** A transaction only above the fork on one path and not above it on the other is on the first
      path alone. */
  lemma OnlyOnOld(tx: nat, oldHead: Block, newHead: Block, common: Block)
    requires IsAncestor(common, oldHead) && IsAncestor(common, newHead) && OncePerPath(oldHead)
    ensures FoundAbove(tx, oldHead, Number(common)) && !FoundAbove(tx, newHead, Number(common)) <==>
            Where(tx, oldHead).Some? && Where(tx, newHead) == None
  {
    WhereSplit(tx, oldHead, Number(common));
    WhereSplit(tx, newHead, Number(common));
  }

  lemma Difference(oldHead: Block, newHead: Block, common: Block, discarded: seq<nat>, included: seq<nat>, txs: seq<nat>)
    requires IsAncestor(common, oldHead) && IsAncestor(common, newHead) && OncePerPath(oldHead)
    requires TakenBack(discarded, oldHead, Number(common)) && TakenBack(included, newHead, Number(common))
    requires forall tx :: tx in txs <==> tx in discarded && tx !in included
    ensures forall tx :: tx in txs <==> Where(tx, oldHead).Some? && Where(tx, newHead) == None
  {
    hide IsAncestor, OncePerPath, Where, FoundAbove;
    forall tx ensures tx in txs <==> Where(tx, oldHead).Some? && Where(tx, newHead) == None {
      OnlyOnOld(tx, oldHead, newHead, common);
    }
  }

  /** Paths known to their shared root meet. */
  lemma RootedMeet(blocks: set<Block>, a: Block, b: Block)
    requires Rooted(blocks, a) && Rooted(blocks, b) && At(a, 0) == At(b, 0)
    ensures Meets(blocks, a, b)
  {
    AtFacts(a, 0);
    assert MeetsAt(blocks, a, b, At(a, 0));
  }

  /** The transactions of the old path above a shared block that the new path lacks, in the order of
      the walk: latest block first. */
  ghost predicate InOrder(txs: seq<nat>, oldHead: Block, newHead: Block, h: Block) {
    && IsAncestor(h, oldHead) && IsAncestor(h, newHead)
    && txs == Reorg.Difference(TxsAbove(oldHead, Number(h)), TxsAbove(newHead, Number(h)))
  }

  /** Walks both chains to their meeting point. What comes back is exactly what the old chain held
      and the new one does not; the walk gives up exactly where a block is missing. */
  method Reinjected(blocks: set<Block>, oldHead: Option<Block>, newHead: Block) returns (r: Walk)
    requires newHead in blocks
    ensures oldHead == None || !Compared(oldHead.value, newHead) ==> r == Found([])
    ensures oldHead.Some? && Compared(oldHead.value, newHead) && r.Found? && OncePerPath(oldHead.value) ==>
              forall tx :: tx in r.txs <==> Where(tx, oldHead.value).Some? && Where(tx, newHead) == None
    ensures oldHead.Some? && Compared(oldHead.value, newHead) && r.Found? ==> exists h :: InOrder(r.txs, oldHead.value, newHead, h)
    ensures r == GaveUp <==>
            && oldHead.Some? && Compared(oldHead.value, newHead)
            && (oldHead.value !in blocks || !Meets(blocks, oldHead.value, newHead))
  {
    hide Number, At, IsAncestor, Climbing, OncePerPath, Where, TakenBack, Descent, Known, MeetsAt, Rooted, TxsAbove, Reorg.Difference;
    if oldHead == None || (newHead.Child? && newHead.parent == oldHead.value) {
      return Found([]);
    }
    if Distance(Number(oldHead.value), Number(newHead)) > MAX_DEPTH {
      return Found([]);
    }
    var rem, add := oldHead.value, newHead;
    if rem !in blocks {
      return GaveUp;
    }
    ghost var oldChain: seq<Block>, newChain: seq<Block> := [], [];
    var discarded: seq<nat>, included: seq<nat> := [], [];
    ClimbStart(rem);
    ClimbStart(add);
    KnownStart(blocks, rem);
    KnownStart(blocks, add);
    NotAbove(rem, add);
    while Number(rem) > Number(add)
      invariant Climbing(oldChain, discarded, oldHead.value, rem) && Known(blocks, oldHead.value, Number(rem))
      invariant Number(rem) >= Number(add) || rem == oldHead.value
      decreases Number(rem)
    {
      ClimbStep(blocks, oldChain, discarded, oldHead.value, rem);
      Climbed(oldChain, discarded, oldHead.value, rem);
      oldChain, discarded := oldChain + [rem], discarded + rem.txs;
      var parent := ParentIn(blocks, rem);
      if parent == None {
        Stuck(blocks, oldHead.value, newHead, rem);
        return GaveUp;
      }
      KnownStep(blocks, oldHead.value, rem);
      rem := parent.value;
    }
    while Number(add) > Number(rem)
      invariant Number(rem) <= Number(add) && Climbing(newChain, included, newHead, add) && Known(blocks, newHead, Number(add))
      decreases Number(add)
    {
      ClimbStep(blocks, newChain, included, newHead, add);
      Climbed(newChain, included, newHead, add);
      newChain, included := newChain + [add], included + add.txs;
      var parent := ParentIn(blocks, add);
      if parent == None {
        Stuck(blocks, newHead, oldHead.value, add);
        return GaveUp;
      }
      KnownStep(blocks, newHead, add);
      add := parent.value;
    }
    while rem != add
      invariant Number(rem) == Number(add)
      invariant Climbing(oldChain, discarded, oldHead.value, rem) && Climbing(newChain, included, newHead, add)
      invariant Known(blocks, oldHead.value, Number(rem)) && Known(blocks, newHead, Number(add))
      decreases Number(rem)
    {
      ClimbStep(blocks, oldChain, discarded, oldHead.value, rem);
      ClimbStep(blocks, newChain, included, newHead, add);
      Climbed(oldChain, discarded, oldHead.value, rem);
      Climbed(newChain, included, newHead, add);
      SharedBelow(rem, add, oldHead.value, newHead);
      oldChain, discarded := oldChain + [rem], discarded + rem.txs;
      var parent := ParentIn(blocks, rem);
      if parent == None {
        Stuck(blocks, oldHead.value, newHead, rem);
        return GaveUp;
      }
      KnownStep(blocks, oldHead.value, rem);
      rem := parent.value;
      newChain, included := newChain + [add], included + add.txs;
      parent := ParentIn(blocks, add);
      if parent == None {
        Stuck(blocks, newHead, oldHead.value, add);
        return GaveUp;
      }
      KnownStep(blocks, newHead, add);
      add := parent.value;
    }
    Climbed(oldChain, discarded, oldHead.value, rem);
    Climbed(newChain, included, newHead, add);
    Met(blocks, oldHead.value, newHead, rem);
    var txs := TxDifference(discarded, included);
    if OncePerPath(oldHead.value) {
      Difference(oldHead.value, newHead, rem, discarded, included, txs);
    }
    assert InOrder(txs, oldHead.value, newHead, rem);
    r := Found(txs);
  }
}
