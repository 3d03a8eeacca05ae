/** What a switch from one head to another takes back and puts in place (core/blockchain.go). */
module Reorg {
  import opened Collections
  import opened Chain

  datatype ReorgError = InvalidOldChain | InvalidNewChain | ImpossibleReorg

  datatype ReorgData =
    | Data(common: Block, oldChain: seq<Block>, newChain: seq<Block>, deletedTxs: seq<nat>)
    | Error(err: ReorgError)

  /** The block before b, when it is known. */
  function ParentIn(blocks: set<Block>, b: Block): Option<Block> {
    if b.Child? && b.parent in blocks then Some(b.parent) else None
  }

  /** The height of the latest block on the path of b that holds a transaction. */
  function Where(tx: nat, b: Block): (r: Option<nat>)
    ensures r.Some? ==> r.value <= Number(b)
  {
    if tx in b.txs then Some(Number(b)) else if b.Genesis? then None else Where(tx, b.parent)
  }

  /** No transaction occurs in two blocks of one path. */
  ghost predicate OncePerPath(b: Block) {
    b.Child? ==> (forall tx :: tx in b.txs ==> Where(tx, b.parent) == None) && OncePerPath(b.parent)
  }

  predicate FoundAbove(tx: nat, b: Block, n: nat) {
    Where(tx, b).Some? && Where(tx, b).value > n
  }

  /** Below a height, a path holds what its ancestor at that height holds. */
  lemma {:induction false} WhereSplit(tx: nat, b: Block, n: nat)
    requires n <= Number(b)
    ensures !FoundAbove(tx, b, n) ==> Where(tx, b) == Where(tx, At(b, n))
    ensures OncePerPath(b) && Where(tx, At(b, n)).Some? ==> !FoundAbove(tx, b, n)
    ensures !FoundAbove(tx, At(b, n), n)
  {
    AtFacts(b, n);
    if n < Number(b) {
      WhereSplit(tx, b.parent, n);
    }
  }

  lemma {:induction false} WhereStep(tx: nat, b: Block, n: nat)
    requires 0 < n <= Number(b)
    ensures FoundAbove(tx, b, n - 1) <==> FoundAbove(tx, b, n) || tx in At(b, n).txs
  {
    AtFacts(b, n);
    if n < Number(b) {
      WhereStep(tx, b.parent, n);
    }
  }

  /** chain lists the path of top from top itself down to just above bottom. */
  ghost predicate Descent(chain: seq<Block>, top: Block, bottom: Block) {
    && IsAncestor(bottom, top) && |chain| == Number(top) - Number(bottom)
    && forall i :: 0 <= i < |chain| ==> chain[i] == Up(top, i)
  }

  /** The transactions of a path above a height, from the top block down. */
  ghost function TxsAbove(top: Block, n: nat): seq<nat>
    requires n <= Number(top)
    decreases Number(top) - n
  {
    if n == Number(top) then [] else TxsAbove(top, n + 1) + At(top, n + 1).txs
  }

  /** txs are the transactions of the path of top above a height. */
  ghost predicate TakenBack(txs: seq<nat>, top: Block, n: nat) {
    forall tx :: tx in txs <==> FoundAbove(tx, top, n)
  }

  lemma DescentStart(b: Block)
    ensures Descent([], b, b) && TakenBack([], b, Number(b))
  {
    AtSelf(b);
    forall tx ensures !FoundAbove(tx, b, Number(b)) {}
  }

  lemma DescentStep(chain: seq<Block>, top: Block, bottom: Block)
    requires Descent(chain, top, bottom) && bottom.Child?
    ensures Descent(chain + [bottom], top, bottom.parent) && Number(bottom.parent) == Number(bottom) - 1
  {
    AtFacts(top, Number(bottom));
  }

  lemma TakeBack(txs: seq<nat>, top: Block, bottom: Block)
    requires TakenBack(txs, top, Number(bottom)) && IsAncestor(bottom, top) && bottom.Child?
    ensures TakenBack(txs + bottom.txs, top, Number(bottom.parent))
  {
    forall tx ensures tx in txs + bottom.txs <==> FoundAbove(tx, top, Number(bottom.parent)) {
      WhereStep(tx, top, Number(bottom));
    }
  }

  /** Every proper ancestor of b is known. */
  ghost predicate Rooted(blocks: set<Block>, b: Block) {
    forall n: nat :: n < Number(b) ==> At(b, n) in blocks
  }

  /** The two branches of a fork: the paths down to the highest block both heads share. */
  ghost predicate Fork(d: ReorgData, oldBlock: Block, newBlock: Block) {
    && d.Data? && Descent(d.oldChain, oldBlock, d.common) && Descent(d.newChain, newBlock, d.common)
    && d.oldChain != [] && d.newChain != []
    && Apart(oldBlock, newBlock, Number(d.common))
    && TakenBack(d.deletedTxs, oldBlock, Number(d.common)) && d.deletedTxs == TxsAbove(oldBlock, Number(d.common))
  }

  ghost predicate Apart(a: Block, b: Block, n: nat) {
    forall m: nat :: n < m <= Number(a) && m <= Number(b) ==> At(a, m) != At(b, m)
  }

  /** Midway down one branch: what has been collected so far. */
  ghost predicate Climbing(chain: seq<Block>, txs: seq<nat>, top: Block, b: Block) {
    Descent(chain, top, b) && TakenBack(txs, top, Number(b)) && txs == TxsAbove(top, Number(b))
  }

  lemma ClimbStart(b: Block)
    ensures Climbing([], [], b, b)
  {
    DescentStart(b);
  }

  lemma ClimbStep(blocks: set<Block>, chain: seq<Block>, txs: seq<nat>, top: Block, b: Block)
    requires Climbing(chain, txs, top, b)
    ensures ParentIn(blocks, b).Some? ==>
              Number(b) > 0 && Climbing(chain + [b], txs + b.txs, top, b.parent) && Number(b.parent) == Number(b) - 1
    ensures ParentIn(blocks, b) == None && Number(b) > 0 ==> !Rooted(blocks, top)
  {
    if b.Child? {
      DescentStep(chain, top, b);
      TakeBack(txs, top, b);
      assert At(top, Number(b)) == b;
    }
  }

  lemma Meet(oldChain: seq<Block>, newChain: seq<Block>, oldBlock: Block, newBlock: Block, common: Block)
    requires Descent(oldChain, oldBlock, common) && Descent(newChain, newBlock, common)
    requires Apart(oldBlock, newBlock, Number(common))
    ensures oldChain == [] <==> IsAncestor(oldBlock, newBlock)
    ensures newChain == [] <==> IsAncestor(newBlock, oldBlock)
  {
    AtSelf(oldBlock);
    AtSelf(newBlock);
  }

  lemma ApartStep(a: Block, b: Block, oldBlock: Block, newBlock: Block)
    requires IsAncestor(a, oldBlock) && IsAncestor(b, newBlock) && Number(a) == Number(b) > 0 && a != b
    requires Apart(oldBlock, newBlock, Number(a))
    ensures Apart(oldBlock, newBlock, Number(a) - 1)
  {
  }

  lemma RootsDiffer(a: Block, b: Block, oldBlock: Block, newBlock: Block)
    requires IsAncestor(a, oldBlock) && IsAncestor(b, newBlock) && Number(a) == Number(b) == 0 && a != b
    ensures At(oldBlock, 0) != At(newBlock, 0)
  {
  }

  lemma ApartStart(oldBlock: Block, newBlock: Block, n: nat)
    requires n >= Number(oldBlock) || n >= Number(newBlock)
    ensures Apart(oldBlock, newBlock, n)
  {
  }

  /** The ancestors of top from height n up are known. */
  ghost predicate Known(blocks: set<Block>, top: Block, n: nat) {
    forall m: nat :: n <= m < Number(top) ==> At(top, m) in blocks
  }

  /** Both paths are known down to a block they share. */
  ghost predicate Meets(blocks: set<Block>, a: Block, b: Block) {
    exists h :: MeetsAt(blocks, a, b, h)
  }

  ghost predicate MeetsAt(blocks: set<Block>, a: Block, b: Block, h: Block) {
    IsAncestor(h, a) && IsAncestor(h, b) && Known(blocks, a, Number(h)) && Known(blocks, b, Number(h))
  }

  lemma KnownStart(blocks: set<Block>, top: Block)
    ensures Known(blocks, top, Number(top))
  {
  }

  lemma KnownStep(blocks: set<Block>, top: Block, b: Block)
    requires IsAncestor(b, top) && Known(blocks, top, Number(b)) && ParentIn(blocks, b).Some?
    ensures Known(blocks, top, Number(b.parent))
  {
    AtFacts(top, Number(b));
  }

  /** A missing parent above every block the paths share keeps them from meeting. */
  lemma Stuck(blocks: set<Block>, top: Block, other: Block, b: Block)
    requires IsAncestor(b, top) && ParentIn(blocks, b) == None
    requires forall h :: IsAncestor(h, top) && IsAncestor(h, other) ==> Number(h) < Number(b)
    ensures !Meets(blocks, top, other) && !Meets(blocks, other, top)
  {
    forall h | IsAncestor(h, top) && IsAncestor(h, other) ensures !Known(blocks, top, Number(h)) {
      AtFacts(top, Number(b));
      assert At(top, Number(b) - 1) !in blocks;
    }
  }

  lemma NotAbove(a: Block, b: Block)
    ensures forall h :: IsAncestor(h, a) && IsAncestor(h, b) ==> Number(h) <= Number(a) && Number(h) <= Number(b)
  {
  }

  /** Where two paths differ, all they share is below. */
  lemma SharedBelow(rem: Block, add: Block, oldHead: Block, newHead: Block)
    requires IsAncestor(rem, oldHead) && IsAncestor(add, newHead) && Number(rem) == Number(add) && rem != add
    ensures forall h :: IsAncestor(h, oldHead) && IsAncestor(h, newHead) ==> Number(h) < Number(rem)
  {
    forall h | IsAncestor(h, oldHead) && IsAncestor(h, newHead) ensures Number(h) < Number(rem) {
      if Number(h) >= Number(rem) {
        AtAt(oldHead, Number(h), Number(rem));
        AtAt(newHead, Number(h), Number(rem));
      }
    }
  }

  /** One step down a path: the parent is known too, or the paths never meet. */
  lemma StepDown(blocks: set<Block>, chain: seq<Block>, txs: seq<nat>, top: Block, other: Block, b: Block)
    requires Climbing(chain, txs, top, b) && Known(blocks, top, Number(b))
    requires forall h :: IsAncestor(h, top) && IsAncestor(h, other) ==> Number(h) < Number(b)
    ensures if ParentIn(blocks, b).Some? then Known(blocks, top, Number(b.parent))
            else !Meets(blocks, top, other) && !Meets(blocks, other, top)
  {
    hide At, IsAncestor, Known, Meets;
    Climbed(chain, txs, top, b);
    if ParentIn(blocks, b).Some? {
      KnownStep(blocks, top, b);
    } else {
      Stuck(blocks, top, other, b);
    }
  }

  lemma Met(blocks: set<Block>, a: Block, b: Block, h: Block)
    requires IsAncestor(h, a) && IsAncestor(h, b) && Known(blocks, a, Number(h)) && Known(blocks, b, Number(h))
    ensures Meets(blocks, a, b)
  {
    assert MeetsAt(blocks, a, b, h);
  }

  /** Collects both branches of a fork by walking parents to the highest common block. With all
      ancestors known it fails exactly when one head lies on the other's path. */
  method GetReorgData(blocks: set<Block>, oldBlock: Block, newBlock: Block) returns (d: ReorgData)
    ensures d.Data? ==> Fork(d, oldBlock, newBlock)
    ensures d == Error(InvalidOldChain) || d == Error(InvalidNewChain) <==> !Meets(blocks, oldBlock, newBlock)
    ensures d == Error(InvalidOldChain) ==> !Rooted(blocks, oldBlock) || At(oldBlock, 0) != At(newBlock, 0)
    ensures d == Error(InvalidNewChain) ==> !Rooted(blocks, newBlock)
    ensures d == Error(ImpossibleReorg) ==> IsAncestor(oldBlock, newBlock) || IsAncestor(newBlock, oldBlock)
    ensures d.Data? ==> !IsAncestor(oldBlock, newBlock) && !IsAncestor(newBlock, oldBlock)
  {
    hide Number, At, IsAncestor, Climbing, Rooted, Apart, Known, MeetsAt, Meets, TxsAbove;
    var oldChain: seq<Block>, newChain: seq<Block>, deletedTxs: seq<nat> := [], [], [];
    ghost var addedTxs: seq<nat> := [];
    var a, b := Some(oldBlock), Some(newBlock);
    ClimbStart(oldBlock);
    ClimbStart(newBlock);
    KnownStart(blocks, oldBlock);
    KnownStart(blocks, newBlock);
    NotAbove(oldBlock, newBlock);
    if Number(oldBlock) > Number(newBlock) {
      while a.Some? && Number(a.value) != Number(newBlock)
        invariant a.Some? ==> Number(a.value) >= Number(newBlock) && Climbing(oldChain, deletedTxs, oldBlock, a.value)
        invariant a.Some? ==> Known(blocks, oldBlock, Number(a.value))
        invariant a == None ==> !Rooted(blocks, oldBlock) && !Meets(blocks, oldBlock, newBlock)
        decreases if a.Some? then Number(a.value) + 1 else 0
      {
        ClimbStep(blocks, oldChain, deletedTxs, oldBlock, a.value);
        StepDown(blocks, oldChain, deletedTxs, oldBlock, newBlock, a.value);
        oldChain := oldChain + [a.value];
        deletedTxs := deletedTxs + a.value.txs;
        a := ParentIn(blocks, a.value);
      }
    } else {
      while b.Some? && Number(b.value) != Number(oldBlock)
        invariant b.Some? ==> Number(b.value) >= Number(oldBlock) && Climbing(newChain, addedTxs, newBlock, b.value)
        invariant b.Some? ==> Known(blocks, newBlock, Number(b.value))
        invariant b == None ==> !Rooted(blocks, newBlock) && !Meets(blocks, oldBlock, newBlock)
        decreases if b.Some? then Number(b.value) + 1 else 0
      {
        ClimbStep(blocks, newChain, addedTxs, newBlock, b.value);
        StepDown(blocks, newChain, addedTxs, newBlock, oldBlock, b.value);
        newChain := newChain + [b.value];
        addedTxs := addedTxs + b.value.txs;
        b := ParentIn(blocks, b.value);
      }
    }
    if a == None {
      return Error(InvalidOldChain);
    }
    if b == None {
      return Error(InvalidNewChain);
    }
    ApartStart(oldBlock, newBlock, Number(a.value));
    while a != b
      invariant a.Some? && b.Some? && Number(a.value) == Number(b.value) && Apart(oldBlock, newBlock, Number(a.value))
      invariant Climbing(oldChain, deletedTxs, oldBlock, a.value) && Climbing(newChain, addedTxs, newBlock, b.value)
      invariant Known(blocks, oldBlock, Number(a.value)) && Known(blocks, newBlock, Number(b.value))
      decreases Number(a.value)
    {
      ClimbStep(blocks, oldChain, deletedTxs, oldBlock, a.value);
      ClimbStep(blocks, newChain, addedTxs, newBlock, b.value);
      Climbed(oldChain, deletedTxs, oldBlock, a.value);
      Climbed(newChain, addedTxs, newBlock, b.value);
      SharedBelow(a.value, b.value, oldBlock, newBlock);
      StepDown(blocks, oldChain, deletedTxs, oldBlock, newBlock, a.value);
      StepDown(blocks, newChain, addedTxs, newBlock, oldBlock, b.value);
      if Number(a.value) == 0 {
        RootsDiffer(a.value, b.value, oldBlock, newBlock);
      } else {
        ApartStep(a.value, b.value, oldBlock, newBlock);
      }
      oldChain := oldChain + [a.value];
      deletedTxs := deletedTxs + a.value.txs;
      newChain := newChain + [b.value];
      addedTxs := addedTxs + b.value.txs;
      a := ParentIn(blocks, a.value);
      if a == None {
        return Error(InvalidOldChain);
      }
      b := ParentIn(blocks, b.value);
      if b == None {
        return Error(InvalidNewChain);
      }
    }
    Climbed(oldChain, deletedTxs, oldBlock, a.value);
    Climbed(newChain, addedTxs, newBlock, b.value);
    Meet(oldChain, newChain, oldBlock, newBlock, a.value);
    Met(blocks, oldBlock, newBlock, a.value);
    if |oldChain| == 0 || |newChain| == 0 {
      return Error(ImpossibleReorg);
    }
    d := Data(a.value, oldChain, newChain, deletedTxs);
  }

  lemma Climbed(chain: seq<Block>, txs: seq<nat>, top: Block, b: Block)
    requires Climbing(chain, txs, top, b)
    ensures Descent(chain, top, b) && TakenBack(txs, top, Number(b)) && IsAncestor(b, top) && txs == TxsAbove(top, Number(b))
  {
  }

  /** The transactions of a that are not in b, in order. */
  function Difference(a: seq<nat>, b: seq<nat>): seq<nat> {
    if a == [] then [] else Difference(a[..|a| - 1], b) + if a[|a| - 1] in b then [] else [a[|a| - 1]]
  }

  lemma {:induction false} DifferenceHolds(a: seq<nat>, b: seq<nat>, tx: nat)
    ensures tx in Difference(a, b) <==> tx in a && tx !in b
  {
    if a != [] {
      DifferenceHolds(a[..|a| - 1], b, tx);
      assert a == a[..|a| - 1] + [a[|a| - 1]];
    }
  }

  method TxDifference(a: seq<nat>, b: seq<nat>) returns (keep: seq<nat>)
    ensures keep == Difference(a, b)
    ensures forall tx :: tx in keep <==> tx in a && tx !in b
  {
    keep := [];
    var remove := {};
    for i := 0 to |b|
      invariant forall tx :: tx in remove <==> tx in b[..i]
    {
      remove := remove + {b[i]};
    }
    for i := 0 to |a|
      invariant keep == Difference(a[..i], b)
    {
      assert a[..i + 1][..i] == a[..i];
      if a[i] !in remove {
        keep := keep + [a[i]];
      }
    }
    assert a[..|a|] == a;
    forall tx ensures tx in keep <==> tx in a && tx !in b {
      DifferenceHolds(a, b, tx);
    }
  }
}
