/** The canonical chain of full blocks: fork choice, reorganisation, and the indexes that follow the
    head (core/blockchain.go). */
module Blockchain {
  import opened Collections
  import opened Chain
  import opened Reorg
  import Mess

  datatype Status = Canonical | Side | UnknownAncestor | Failed(err: ReorgError) | Crashed

  datatype BlockOp =
    | Write(block: Block, headPreserve: bool, blockPreserve: bool, coin: bool, finality: bool)
    | StoreOnly(block: Block)
    | MakeHead(block: Block)

  /** The number index holds the whole path of base. */
  ghost predicate Below(canon: map<nat, Block>, base: Block) {
    forall n: nat :: n <= Number(base) ==> n in canon && canon[n] == At(base, n)
  }

  /** No gaps in the number index. */
  ghost predicate Closed(canon: map<nat, Block>) {
    forall n: nat, m: nat :: n in canon && m < n ==> m in canon
  }

  /** Whatever is indexed above the head is not built on the head. */
  ghost predicate Stray(canon: map<nat, Block>, head: Block) {
    forall n: nat :: n in canon && n > Number(head) ==> Number(canon[n]) == n && !IsAncestor(head, canon[n])
  }

  /** The lookup index knows exactly the transactions on the path of head, at their heights. */
  ghost predicate Indexed(lookup: map<nat, nat>, head: Block) {
    forall tx :: (tx in lookup <==> Where(tx, head).Some?) && (tx in lookup ==> lookup[tx] == Where(tx, head).value)
  }

  function Record(lookup: map<nat, nat>, block: Block): map<nat, nat> {
    lookup + map tx | tx in block.txs :: Number(block)
  }

  lemma RecordIndexed(lookup: map<nat, nat>, block: Block)
    requires block.Child? && Indexed(lookup, block.parent)
    ensures Indexed(Record(lookup, block), block)
  {
  }

  lemma BelowStep(canon: map<nat, Block>, block: Block)
    requires block.Child? && Below(canon, block.parent)
    ensures Below(canon[Number(block) := block], block)
  {
  }

  /** Midway through a reorganisation: the new branch is written up to base, over the old index. */
  ghost predicate Rebasing(canon: map<nat, Block>, canon': map<nat, Block>, base: Block) {
    && (forall n: nat :: n in canon' <==> n in canon || n <= Number(base))
    && Below(canon', base)
    && (forall n: nat :: n in canon' && n > Number(base) ==> canon'[n] == canon[n])
  }

  ghost predicate Layered(lookup: map<nat, nat>, lookup': map<nat, nat>, base: Block, c: nat) {
    forall tx ::
      && (tx in lookup' <==> tx in lookup || FoundAbove(tx, base, c))
      && (tx in lookup' ==> lookup'[tx] == if FoundAbove(tx, base, c) then Where(tx, base).value else lookup[tx])
  }

  lemma BelowAncestor(canon: map<nat, Block>, head: Block, base: Block)
    requires Below(canon, head) && IsAncestor(base, head)
    ensures Below(canon, base)
  {
    forall n: nat | n <= Number(base) ensures n in canon && canon[n] == At(base, n) {
      AtAt(head, Number(base), n);
    }
  }

  lemma RebaseStart(canon: map<nat, Block>, lookup: map<nat, nat>, head: Block, base: Block)
    requires Below(canon, head) && IsAncestor(base, head)
    ensures Rebasing(canon, canon, base) && Layered(lookup, lookup, base, Number(base)) && TakenBack([], base, Number(base))
  {
    BelowAncestor(canon, head, base);
    DescentStart(base);
  }

  lemma RebaseStep(canon: map<nat, Block>, canon': map<nat, Block>, block: Block)
    requires block.Child? && Rebasing(canon, canon', block.parent)
    ensures Rebasing(canon, canon'[Number(block) := block], block)
  {
    BelowStep(canon', block);
  }

  lemma LayerStep(lookup: map<nat, nat>, lookup': map<nat, nat>, block: Block, c: nat, txs: seq<nat>)
    requires block.Child? && c <= Number(block.parent) && Layered(lookup, lookup', block.parent, c)
    requires TakenBack(txs, block.parent, c)
    ensures Layered(lookup, Record(lookup', block), block, c) && TakenBack(txs + block.txs, block, c)
  {
    forall tx ensures FoundAbove(tx, block, c) <==> tx in block.txs || FoundAbove(tx, block.parent, c) {}
  }

  /** Deleting what only the old branch held leaves exactly the transactions of the new path. */
  lemma LayerDone(lookup: map<nat, nat>, lookup': map<nat, nat>, head: Block, base: Block, common: Block, keep: set<nat>)
    requires IsAncestor(common, head) && IsAncestor(common, base) && OncePerPath(head)
    requires Indexed(lookup, head) && Layered(lookup, lookup', base, Number(common))
    requires forall tx :: tx in keep <==> FoundAbove(tx, head, Number(common)) && !FoundAbove(tx, base, Number(common))
    ensures Indexed(lookup' - keep, base)
  {
    hide IsAncestor, OncePerPath, Where;
    forall tx
      ensures tx in lookup' - keep <==> Where(tx, base).Some?
      ensures tx in lookup' - keep ==> (lookup' - keep)[tx] == Where(tx, base).value
    {
      Split(tx, head, common);
      Split(tx, base, common);
    }
  }

  lemma Split(tx: nat, head: Block, common: Block)
    requires IsAncestor(common, head)
    ensures !FoundAbove(tx, head, Number(common)) ==> Where(tx, head) == Where(tx, common)
    ensures OncePerPath(head) && Where(tx, common).Some? ==> !FoundAbove(tx, head, Number(common))
  {
    WhereSplit(tx, head, Number(common));
  }

  ghost function From(canon: map<nat, Block>, i: nat): set<nat> {
    set n | n in canon && n >= i
  }

  /** Removes every index entry above a height, counting up to the first gap. */
  method Truncate(canon: map<nat, Block>, number: nat) returns (canon': map<nat, Block>)
    requires Closed(canon)
    ensures forall n: nat :: n in canon' <==> n in canon && n <= number
    ensures forall n: nat :: n in canon' ==> canon'[n] == canon[n]
  {
    var deletes: set<nat> := {};
    var i := number + 1;
    while i in canon
      invariant number < i && forall n: nat :: n in deletes <==> number < n < i
      decreases From(canon, i)
    {
      assert i in From(canon, i) && From(canon, i + 1) <= From(canon, i);
      deletes := deletes + {i};
      i := i + 1;
    }
    canon' := canon - deletes;
  }

  /** The indexes are prepared for a block: its parent's path is in place and nothing at its height
      or above is built on it. */
  ghost predicate Ready(canon: map<nat, Block>, lookup: map<nat, nat>, block: Block) {
    && block.Child? && Below(canon, block.parent) && Closed(canon) && Indexed(lookup, block.parent)
    && forall n: nat :: n in canon && n >= Number(block) ==> Number(canon[n]) == n && !IsAncestor(block, canon[n])
  }

  lemma ReadyDone(canon: map<nat, Block>, lookup: map<nat, nat>, block: Block)
    requires Ready(canon, lookup, block)
    ensures Routing(canon[Number(block) := block], Record(lookup, block), block)
    ensures Number(block) !in canon || canon[Number(block)] != block
  {
    BelowStep(canon, block);
    RecordIndexed(lookup, block);
    AtSelf(block);
    assert Number(block) - 1 in canon;
  }

  /** The indexes follow the head: its path by number, its transactions, no gaps, strays above. */
  ghost predicate Routing(canon: map<nat, Block>, lookup: map<nat, nat>, head: Block) {
    Below(canon, head) && Closed(canon) && Stray(canon, head) && Indexed(lookup, head)
  }

  lemma ExtendReady(canon: map<nat, Block>, lookup: map<nat, nat>, block: Block)
    requires block.Child? && Routing(canon, lookup, block.parent)
    ensures Ready(canon, lookup, block)
  {
    forall n: nat | n in canon && n >= Number(block) ensures !IsAncestor(block, canon[n]) {
      if IsAncestor(block, canon[n]) {
        AtFacts(canon[n], Number(block));
      }
    }
  }

  /** After a reorganisation the index reaches up to the new parent, or to the old head when the new
      branch is a single block. */
  lemma ForkReady(canon: map<nat, Block>, canon': map<nat, Block>, lookup': map<nat, nat>, d: ReorgData, head: Block, block: Block)
    requires Fork(d, head, block) && Below(canon, head) && block.Child?
    requires Below(canon', block.parent) && Indexed(lookup', block.parent)
    requires forall n: nat :: n in canon' <==> n <= Number(if |d.newChain| >= 2 then block.parent else head)
    requires forall n: nat :: n in canon' && n > Number(block.parent) ==> n in canon && canon'[n] == canon[n]
    ensures Ready(canon', lookup', block)
  {
    forall n: nat | n in canon' && n >= Number(block) ensures Number(canon'[n]) == n && !IsAncestor(block, canon'[n]) {
      AtAt(head, n, Number(block));
    }
  }

  /** The block of the new branch k below its head, or the common block underneath. */
  function BranchBlock(d: ReorgData, k: nat): Block
    requires d.Data?
  {
    if k < |d.newChain| then d.newChain[k] else d.common
  }

  lemma BranchStep(d: ReorgData, head: Block, block: Block, i: nat)
    requires Fork(d, head, block) && (i == 0 || i < |d.newChain|)
    ensures i < |d.newChain| && d.newChain[i].Child? && d.newChain[i].parent == BranchBlock(d, i + 1)
    ensures Number(d.newChain[i]) == Number(d.newChain[i].parent) + 1
    ensures IsAncestor(d.common, d.newChain[i].parent) && d.newChain[0] == block
    ensures IsAncestor(d.common, head)
  {
    AtFacts(block, Number(block) - i);
    AtAt(block, Number(block) - i - 1, Number(d.common));
    AtSelf(block);
  }

  lemma RoutingFacts(canon: map<nat, Block>, lookup: map<nat, nat>, head: Block)
    requires Routing(canon, lookup, head)
    ensures Below(canon, head) && Closed(canon) && Stray(canon, head) && Indexed(lookup, head)
  {
  }

  lemma RebaseClosed(canon: map<nat, Block>, canon': map<nat, Block>, base: Block)
    requires Closed(canon) && Rebasing(canon, canon', base)
    ensures Closed(canon')
  {
  }

  lemma Drop(d: ReorgData, head: Block, block: Block, lookup: map<nat, nat>, lookup': map<nat, nat>,
             addedTxs: seq<nat>, keep: seq<nat>, dropped: set<nat>)
    requires Fork(d, head, block) && block.Child? && IsAncestor(d.common, block.parent) && OncePerPath(head)
    requires Indexed(lookup, head) && Layered(lookup, lookup', block.parent, Number(d.common))
    requires TakenBack(addedTxs, block.parent, Number(d.common))
    requires forall tx :: tx in keep <==> tx in d.deletedTxs && tx !in addedTxs
    requires forall tx :: tx in dropped <==> tx in keep
    ensures Indexed(lookup' - dropped, block.parent)
  {
    hide Where, IsAncestor, Number, At, Layered, Indexed, OncePerPath;
    LayerDone(lookup, lookup', head, block.parent, d.common, dropped);
  }

  lemma Settle(d: ReorgData, head: Block, block: Block, canon: map<nat, Block>, written: map<nat, Block>,
               canon': map<nat, Block>, lookup': map<nat, nat>, number: nat)
    requires Fork(d, head, block) && block.Child? && Below(canon, head) && Rebasing(canon, written, block.parent)
    requires Indexed(lookup', block.parent) && Number(block) == Number(block.parent) + 1
    requires number == Number(if |d.newChain| >= 2 then block.parent else head)
    requires forall n: nat :: n in canon' <==> n in written && n <= number
    requires forall n: nat :: n in canon' ==> canon'[n] == written[n]
    ensures Ready(canon', lookup', block)
    ensures forall n: nat :: n in canon' <==> n <= Number(if |d.newChain| >= 2 then block.parent else head)
  {
    hide Where, IsAncestor, Number, At, Indexed, TakenBack, Apart;
    ForkReady(canon, canon', lookup', d, head, block);
  }

  /** The highest block on both paths, for blocks of one tree. */
  function Common(a: Block, b: Block): Block
    decreases Number(a) + Number(b)
  {
    if Number(a) > Number(b) then Common(a.parent, b)
    else if Number(b) > Number(a) then Common(a, b.parent)
    else if a == b || a.Genesis? then a
    else Common(a.parent, b.parent)
  }

  lemma {:induction false} CommonUnique(a: Block, b: Block, c: Block)
    requires IsAncestor(c, a) && IsAncestor(c, b) && Apart(a, b, Number(c))
    ensures Common(a, b) == c
    decreases Number(a) + Number(b)
  {
    AtSelf(a);
    AtSelf(b);
    if Number(a) > Number(b) {
      ApartParent(a, b, Number(c));
      CommonUnique(a.parent, b, c);
    } else if Number(b) > Number(a) {
      ApartParent(b, a, Number(c));
      CommonUnique(a, b.parent, c);
    } else if a != b && a.Child? {
      ApartParent(a, b, Number(c));
      ApartParent(b, a.parent, Number(c));
      CommonUnique(a.parent, b.parent, c);
    }
  }

  lemma ApartParent(a: Block, b: Block, n: nat)
    requires a.Child? && (Apart(a, b, n) || Apart(b, a, n))
    ensures Apart(a.parent, b, n) && Apart(b, a.parent, n)
  {
    forall m: nat | n < m <= Number(a.parent) && m <= Number(b) ensures At(a.parent, m) != At(b, m) {
      AtFacts(a, m);
    }
  }

  /** One block lies on the path of the other. */
  ghost predicate Related(a: Block, b: Block) {
    IsAncestor(a, b) || IsAncestor(b, a)
  }

  /** The seconds from a to b as the source computes them: an unsigned difference read as signed. */
  function Age(a: Block, b: Block): int {
    var diff := (b.time - a.time) % TWO64;
    if diff < TWO64 / 2 then diff else diff - TWO64
  }

  /** The age is the true difference, up to multiples of two to the sixty-four, and it is that
      difference exactly when it fits 64 signed bits. */
  lemma AgeExact(a: Block, b: Block)
    ensures -(TWO64 / 2) <= Age(a, b) < TWO64 / 2 && (Age(a, b) - (b.time - a.time)) % TWO64 == 0
    ensures Age(a, b) == b.time - a.time <==> -(TWO64 / 2) <= b.time - a.time < TWO64 / 2
  {
    var d: int := b.time - a.time;
    var q := d / TWO64;
    assert d == q * TWO64 + d % TWO64;
    if -(TWO64 / 2) <= d < 0 {
      assert q == -1;
    } else if 0 <= d < TWO64 / 2 {
      assert q == 0;
    }
    if Age(a, b) == d % TWO64 {
      assert Age(a, b) - d == -q * TWO64;
    } else {
      assert Age(a, b) - d == (-q - 1) * TWO64;
    }
  }

  /** The finality rule for leaving head for block. */
  predicate Gravity(common: Block, head: Block, block: Block) {
    Mess.Accepts(Age(common, head), TD(head) - TD(common), TD(block) - TD(common))
  }

  /** More total difficulty wins; on a tie fewer blocks win, then locally mined blocks, then a coin. */
  predicate Prefers(block: Block, head: Block, headPreserve: bool, blockPreserve: bool, coin: bool) {
    || TD(block) > TD(head)
    || (TD(block) == TD(head) &&
        (Number(block) < Number(head) || (Number(block) == Number(head) && !headPreserve && (blockPreserve || coin))))
  }

  /** Who mined a block and the coin matter only between paths of equal weight and length. */
  lemma TieBreak(block: Block, head: Block, headPreserve: bool, blockPreserve: bool, coin: bool)
    ensures TD(block) != TD(head) || Number(block) != Number(head) ==>
              (Prefers(block, head, headPreserve, blockPreserve, coin) <==> !Prefers(head, block, blockPreserve, headPreserve, coin))
    ensures TD(block) == TD(head) && Number(block) == Number(head) ==>
              && (headPreserve ==> !Prefers(block, head, headPreserve, blockPreserve, coin))
              && (blockPreserve && !headPreserve ==> Prefers(block, head, headPreserve, blockPreserve, coin))
              && (!blockPreserve && !headPreserve ==> (Prefers(block, head, headPreserve, blockPreserve, coin) <==> coin))
  {
  }

  ghost predicate Weighty(blocks: set<Block>) {
    forall b :: b in blocks && b.Child? ==> b.difficulty > 0
  }

  lemma Outweighs(a: Block, b: Block)
    requires IsAncestor(a, b) && a != b && b.Child? && b.difficulty > 0
    ensures TD(a) < TD(b)
  {
    Lighter(a, b.parent);
  }

  /** One write without the finality rule: the head stays the best block. */
  lemma BestStep(blocks: set<Block>, genesis: Block, head: Block, block: Block, head': Block,
                 headPreserve: bool, blockPreserve: bool, coin: bool)
    requires Tree(blocks, genesis) && Best(blocks, head) && Weighty(blocks) && head in blocks
    requires block.Child? && block.parent in blocks && block.difficulty > 0
    requires head' == if Prefers(block, head, headPreserve, blockPreserve, coin) && !(!Extends(block, head) && Related(head, block))
                      then block else head
    ensures Best(blocks + {block}, head') && Weighty(blocks + {block})
  {
    hide TD, Number, At;
    if Prefers(block, head, headPreserve, blockPreserve, coin) && !Extends(block, head) && Related(head, block) && block != head {
      if IsAncestor(head, block) {
        ParentRelated(head, block);
        assert block.parent in blocks && block.parent.Child?;
        Outweighs(head, block.parent);
      } else {
        assert head.Child? by { RootRelated(blocks, genesis, head, block); }
        Outweighs(block, head);
      }
    }
  }

  lemma ParentRelated(a: Block, b: Block)
    requires IsAncestor(a, b) && a != b && b.Child? && b.parent != a
    ensures IsAncestor(a, b.parent) && b.parent.Child?
  {
    if b.parent.Genesis? {
      AtSelf(b.parent);
    }
  }

  lemma RootRelated(blocks: set<Block>, genesis: Block, a: Block, b: Block)
    requires Tree(blocks, genesis) && a in blocks && IsAncestor(b, a) && a != b
    ensures a.Child?
  {
  }

  predicate Extends(block: Block, head: Block) {
    block.Child? && block.parent == head
  }

  /** When moving the head leaves nothing indexed above it. */
  ghost predicate KeepsExact(head: Block, block: Block) {
    Extends(block, head) || Number(block) >= Number(head) || Number(block) >= Number(Common(head, block)) + 2
  }

  ghost predicate UpTo(canon: map<nat, Block>, n: nat) {
    forall m: nat :: m in canon ==> m <= n
  }

  lemma AfterFork(canon: map<nat, Block>, block: Block, head: nat, blocks: nat)
    requires block.Child? && forall n: nat :: n in canon <==> n <= if blocks >= 2 then Number(block.parent) else head
    ensures UpTo(canon[Number(block) := block], Number(block)) <==> blocks >= 2 || Number(block) >= head
  {
    if blocks < 2 {
      assert head in canon[Number(block) := block];
    }
  }

  lemma AfterExtension(canon: map<nat, Block>, block: Block)
    requires block.Child? && UpTo(canon, Number(block.parent))
    ensures UpTo(canon[Number(block) := block], Number(block))
  {
  }

  lemma Chosen(block: Block, head: Block, headPreserve: bool, blockPreserve: bool, coin: bool)
    ensures Prefers(block, head, headPreserve, blockPreserve, coin) ==> TD(block) >= TD(head)
  {
  }

  lemma Forked(d: ReorgData, head: Block, block: Block)
    requires Fork(d, head, block)
    ensures d.common == Common(head, block) && |d.newChain| == Number(block) - Number(d.common) >= 1
    ensures block.Child? && Number(block) == Number(block.parent) + 1
  {
    CommonUnique(head, block, d.common);
  }

  /** A block of positive difficulty is written without the finality rule. */
  predicate Plain(op: BlockOp) {
    op.Write? && !op.finality && op.block.Child? && op.block.difficulty > 0
  }

  /** The stored blocks and the head. */
  datatype Chained = Chained(blocks: set<Block>, head: Block)

  /** Whether a write makes its block the head. */
  ghost predicate Switches(head: Block, op: BlockOp)
    requires op.Write?
  {
    && Prefers(op.block, head, op.headPreserve, op.blockPreserve, op.coin)
    && (Extends(op.block, head) || (!Related(head, op.block) && (op.finality ==> Gravity(Common(head, op.block), head, op.block))))
  }

  ghost function Changed(c: Chained, op: BlockOp): Chained {
    match op
    case Write(block, _, _, _, _) =>
      if block.Genesis? || block.parent !in c.blocks then c
      else Chained(c.blocks + {block}, if Switches(c.head, op) then block else c.head)
    case StoreOnly(block) => if block.Genesis? || block.parent !in c.blocks then c else c.(blocks := c.blocks + {block})
    case MakeHead(block) => if block in c.blocks && (Extends(block, c.head) || !Related(c.head, block)) then c.(head := block) else c
  }

  ghost function Played(c: Chained, ops: seq<BlockOp>): Chained {
    if ops == [] then c else Changed(Played(c, ops[..|ops| - 1]), ops[|ops| - 1])
  }

  class BlockChain {
    const genesis: Block
    var blocks: set<Block>
    var tds: map<Block, nat>
    var canon: map<nat, Block>
    var lookup: map<nat, nat>
    var current: Block
    var header: Block
    var fast: Block

    ghost predicate Stored()
      reads this`blocks, this`tds
    {
      && Tree(blocks, genesis)
      && tds.Keys == blocks && (forall b :: b in blocks ==> tds[b] == TD(b))
      && (forall b :: b in blocks ==> OncePerPath(b))
    }

    /** All three head markers agree and the indexes follow them. */
    ghost predicate Valid()
      reads this
    {
      Stored() && current in blocks && header == current && fast == current && Routing(canon, lookup, current)
    }

    /** Nothing is indexed above the head. */
    ghost predicate Exact()
      reads this`canon, this`current
    {
      UpTo(canon, Number(current))
    }

    constructor (genesis: Block)
      requires genesis.Genesis? && genesis.txs == []
      ensures Valid() && Exact() && current == genesis && blocks == {genesis} && this.genesis == genesis
    {
      this.genesis := genesis;
      blocks, tds, canon, lookup := {genesis}, map[genesis := genesis.difficulty], map[0 := genesis], map[];
      current, header, fast := genesis, genesis, genesis;
    }

    /** Marks a block as head: number index, lookup entries, and the other heads unless the block was
        indexed already. */
    method WriteHeadBlock(block: Block)
      modifies this`canon, this`lookup, this`current, this`header, this`fast
      ensures canon == old(canon)[Number(block) := block] && lookup == Record(old(lookup), block) && current == block
      ensures Number(block) in old(canon) && old(canon)[Number(block)] == block ==> header == old(header) && fast == old(fast)
      ensures Number(block) !in old(canon) || old(canon)[Number(block)] != block ==> header == block && fast == block
    {
      var updateHeads := !(Number(block) in canon && canon[Number(block)] == block);
      canon := canon[Number(block) := block];
      lookup := Record(lookup, block);
      if updateHeads {
        header, fast := block, block;
      }
      current := block;
    }

    lemma OnceAt(b: Block)
      requires Stored() && b in blocks
      ensures OncePerPath(b)
    {
    }

    /** Writes all of the new branch but its last block, then drops the transactions and numbers only
        the old branch had. The impossible case reads the heights of blocks that were never set. */
    method Reorganise(d: ReorgData, ghost block: Block) returns (status: Status)
      requires Stored() && current in blocks && Routing(canon, lookup, current)
      requires d.Data? ==> Fork(d, current, block)
      modifies this`canon, this`lookup, this`current, this`header, this`fast
      ensures d.Error? ==> unchanged(this) && status == if d.err == ImpossibleReorg then Crashed else Failed(d.err)
      ensures d.Data? ==>
                && status == Canonical && Ready(canon, lookup, block)
                && forall n: nat :: n in canon <==> n <= Number(if |d.newChain| >= 2 then block.parent else old(current))
    {
      hide Number, At, IsAncestor, OncePerPath, Where, Below, Indexed, Layered, Rebasing, TakenBack, Fork, Ready, Routing, Descent;
      if d.Error? {
        return if d.err == ImpossibleReorg then Crashed else Failed(d.err);
      }
      var addedTxs: seq<nat> := [];
      var i := |d.newChain| - 1;
      BranchStep(d, current, block, 0);
      RoutingFacts(canon, lookup, current);
      RebaseStart(canon, lookup, current, d.common);
      while i >= 1
        invariant 0 <= i < |d.newChain|
        invariant Rebasing(old(canon), canon, BranchBlock(d, i + 1)) && Layered(old(lookup), lookup, BranchBlock(d, i + 1), Number(d.common))
        invariant TakenBack(addedTxs, BranchBlock(d, i + 1), Number(d.common))
        invariant current == if i == |d.newChain| - 1 then old(current) else BranchBlock(d, i + 1)
      {
        BranchStep(d, old(current), block, i);
        RebaseStep(old(canon), canon, d.newChain[i]);
        LayerStep(old(lookup), lookup, d.newChain[i], Number(d.common), addedTxs);
        WriteHeadBlock(d.newChain[i]);
        addedTxs := addedTxs + d.newChain[i].txs;
        i := i - 1;
      }
      BranchStep(d, old(current), block, 0);
      OnceAt(old(current));
      var keep := TxDifference(d.deletedTxs, addedTxs);
      var dropped := set tx | tx in keep;
      Drop(d, old(current), block, old(lookup), lookup, addedTxs, keep, dropped);
      lookup := lookup - dropped;
      RebaseClosed(old(canon), canon, block.parent);
      ghost var written := canon;
      var number := Number(current);
      canon := Truncate(canon, number);
      Settle(d, old(current), block, old(canon), written, canon, lookup, number);
      status := Canonical;
    }

    /** Moves the head to a known block. Nothing stays indexed above the new head unless the new
        branch is a single block lower than the old head. */
    method WriteKnownBlockAsHead(block: Block) returns (status: Status)
      requires Valid() && block in blocks
      modifies this`canon, this`lookup, this`current, this`header, this`fast
      ensures Valid()
      ensures status == Crashed <==> !Extends(block, old(current)) && Related(old(current), block)
      ensures status == Crashed ==> unchanged(this)
      ensures status != Crashed ==> status == Canonical && current == block
      ensures status == Canonical && (old(Exact()) || !Extends(block, old(current))) ==>
                (Exact() <==> KeepsExact(old(current), block))
    {
      hide Number, At, Tree, OncePerPath, Routing, Fork, Ready, Rooted, IsAncestor, Common, TD, UpTo;
      status := Canonical;
      if !Extends(block, current) {
        var d := GetReorgData(blocks, current, block);
        AllRooted(block);
        status := Reorganise(d, block);
        if status != Canonical {
          return;
        }
        Forked(d, old(current), block);
        AfterFork(canon, block, Number(old(current)), |d.newChain|);
      } else {
        Extended(block);
        if Exact() {
          AfterExtension(canon, block);
        }
      }
      ReadyDone(canon, lookup, block);
      WriteHeadBlock(block);
    }

    lemma AllRooted(block: Block)
      requires Stored() && current in blocks && block in blocks
      ensures Rooted(blocks, block) && Rooted(blocks, current) && At(current, 0) == At(block, 0)
    {
      forall n: nat | n < Number(block) ensures At(block, n) in blocks { TreeAt(blocks, genesis, block, n); }
      forall n: nat | n < Number(current) ensures At(current, n) in blocks { TreeAt(blocks, genesis, current, n); }
      TreeAt(blocks, genesis, block, 0);
      TreeAt(blocks, genesis, current, 0);
    }

    lemma Extended(block: Block)
      requires Routing(canon, lookup, current) && Extends(block, current)
      ensures Ready(canon, lookup, block) && Number(block) == Number(current) + 1
    {
      ExtendReady(canon, lookup, block);
    }

    method GetTd(b: Block) returns (td: Option<nat>)
      requires Stored()
      ensures td == if b in blocks then Some(TD(b)) else None
    {
      td := if b in tds then Some(tds[b]) else None;
    }

    /** Writes a block and its total difficulty without touching the head. */
    method Store(block: Block, td: nat)
      requires Stored() && block.Child? && block.parent in blocks && OncePerPath(block) && td == TD(block)
      modifies this`blocks, this`tds
      ensures Stored() && blocks == old(blocks) + {block}
    {
      tds := tds[block := td];
      blocks := blocks + {block};
    }

    /** The artificial finality rule: a branch that has fallen behind needs more than its weight. */
    method Ecbp1100(common: Block, head: Block, proposed: Block) returns (ok: bool)
      requires Stored() && common in blocks && head in blocks && proposed.Child? && proposed.parent in blocks
      ensures ok == Gravity(common, head, proposed)
    {
      var commonTd := GetTd(common);
      var parentTd := GetTd(proposed.parent);
      var proposedTd := proposed.difficulty + parentTd.value;
      var localTd := GetTd(head);
      var proposedSubchain, localSubchain := proposedTd - commonTd.value, localTd.value - commonTd.value;
      var want := Mess.PolynomialV(Age(common, head)) * localSubchain;
      var got := proposedSubchain * Mess.DENOMINATOR;
      ok := got >= want;
    }

    method Choose(block: Block, externTd: nat, localTd: nat, headPreserve: bool, blockPreserve: bool, coin: bool) returns (reorg: bool)
      requires externTd == TD(block) && localTd == TD(current)
      ensures reorg == Prefers(block, current, headPreserve, blockPreserve, coin)
    {
      reorg := externTd > localTd;
      if !reorg && externTd == localTd {
        if Number(block) < Number(current) {
          reorg := true;
        } else if Number(block) == Number(current) {
          reorg := !headPreserve && (blockPreserve || coin);
        }
      }
    }

    /** Stores a block with a known parent and makes it the head when it is preferred and, with
        finality on, when leaving the current branch for it is accepted. */
    method WriteBlockWithState(block: Block, headPreserve: bool, blockPreserve: bool, coin: bool, finality: bool) returns (status: Status)
      requires Valid() && OncePerPath(block)
      modifies this
      ensures Valid()
      ensures status == UnknownAncestor <==> block.Genesis? || block.parent !in old(blocks)
      ensures status == UnknownAncestor ==> unchanged(this)
      ensures status != UnknownAncestor ==> blocks == old(blocks) + {block}
      ensures status.Canonical? ==> current == block
      ensures !status.Canonical? ==> current == old(current) && canon == old(canon) && lookup == old(lookup)
      ensures status != UnknownAncestor ==>
                var preferred := Prefers(block, old(current), headPreserve, blockPreserve, coin);
                var leaves := !Extends(block, old(current));
                && (status == Crashed <==> preferred && leaves && Related(old(current), block))
                && (status == Canonical <==>
                    preferred && !(leaves && Related(old(current), block))
                    && !(leaves && finality && !Gravity(Common(old(current), block), old(current), block)))
                && (status == Side <==> status != Crashed && status != Canonical)
      ensures TD(current) >= TD(old(current))
      ensures status == Canonical && (old(Exact()) || !Extends(block, old(current))) ==>
                (Exact() <==> KeepsExact(old(current), block))
    {
      hide Number, At, Tree, OncePerPath, Routing, Fork, Ready, Rooted, IsAncestor, Common, TD, UpTo, Gravity, Prefers, Stored;
      if block.Genesis? {
        return UnknownAncestor;
      }
      var ptd := GetTd(block.parent);
      if ptd == None {
        return UnknownAncestor;
      }
      var localTd := GetTd(current);
      var externTd := block.difficulty + ptd.value;
      Unfold(block);
      Store(block, externTd);
      var reorg := Choose(block, externTd, localTd.value, headPreserve, blockPreserve, coin);
      Chosen(block, current, headPreserve, blockPreserve, coin);
      if !reorg {
        return Side;
      }
      if !Extends(block, current) {
        var d := GetReorgData(blocks, current, block);
        AllRooted(block);
        if d.Data? {
          Forked(d, current, block);
          if finality {
            CommonStored(d, block);
            var ok := Ecbp1100(d.common, current, block);
            if !ok {
              return Side;
            }
          }
        }
        status := Reorganise(d, block);
        if status != Canonical {
          return;
        }
        AfterFork(canon, block, Number(old(current)), |d.newChain|);
      } else {
        Extended(block);
        if Exact() {
          AfterExtension(canon, block);
        }
      }
      ReadyDone(canon, lookup, block);
      WriteHeadBlock(block);
      status := Canonical;
    }

    lemma Unfold(block: Block)
      requires block.Child?
      ensures TD(block) == TD(block.parent) + block.difficulty
    {
    }

    lemma CommonStored(d: ReorgData, block: Block)
      requires Stored() && current in blocks && Fork(d, current, block)
      ensures d.common in blocks
    {
      TreeAt(blocks, genesis, current, Number(d.common));
    }

    lemma StoredTree()
      requires Stored()
      ensures Tree(blocks, genesis)
    {
    }

    /** Any sequence of block writes keeps the indexes on the path of the head; the head's total
        difficulty goes down only where a known block is made head outright. Written one by one
        without the finality rule, blocks of positive difficulty leave the heaviest as head, and among
        those the shortest. */
    method Run(ops: seq<BlockOp>)
      requires Valid() && forall op :: op in ops ==> op.block.Child? && OncePerPath(op.block)
      modifies this
      ensures Valid() && old(blocks) <= blocks && Chained(blocks, current) == Played(old(Chained(blocks, current)), ops)
      ensures (forall op :: op in ops ==> !op.MakeHead?) ==> TD(current) >= TD(old(current))
      ensures old(Best(blocks, current)) && old(Weighty(blocks)) && (forall op :: op in ops ==> Plain(op)) ==> Best(blocks, current)
    {
      hide Best, Weighty, OncePerPath, TD, Stored, Routing, Prefers, Gravity, Related, Extends, KeepsExact, Common;
      for i := 0 to |ops|
        invariant Valid() && old(blocks) <= blocks && Chained(blocks, current) == Played(old(Chained(blocks, current)), ops[..i])
        invariant (forall op :: op in ops ==> !op.MakeHead?) ==> TD(current) >= TD(old(current))
        invariant old(Best(blocks, current)) && old(Weighty(blocks)) && (forall op :: op in ops ==> Plain(op)) ==>
                    Best(blocks, current) && Weighty(blocks)
      {
        var op := ops[i];
        assert op in ops && ops[..i + 1][..i] == ops[..i];
        match op {
          case Write(block, headPreserve, blockPreserve, coin, finality) =>
            ghost var before, head := blocks, current;
            StoredTree();
            var _ := WriteBlockWithState(block, headPreserve, blockPreserve, coin, finality);
            if Best(before, head) && Weighty(before) && Plain(op) && block.parent in before {
              BestStep(before, genesis, head, block, current, headPreserve, blockPreserve, coin);
            }
          case StoreOnly(block) =>
            var ptd := GetTd(block.parent);
            if ptd.Some? {
              Unfold(block);
              Store(block, ptd.value + block.difficulty);
            }
          case MakeHead(block) =>
            if block in blocks {
              var _ := WriteKnownBlockAsHead(block);
            }
        }
      }
      assert ops[..|ops|] == ops;
    }
  }

  const G := Genesis(0, 1, 0, [])
  const A1 := Child(G, 1, 1, 1, [])
  const A2 := Child(A1, 2, 1, 2, [])
  const B1 := Child(G, 3, 3, 1, [])

  lemma ExampleFacts()
    ensures OncePerPath(A1) && OncePerPath(A2) && OncePerPath(B1)
    ensures TD(G) < TD(A1) < TD(A2) < TD(B1) && Number(A2) == 2 && Number(B1) == 1 && Number(G) == 0
    ensures Common(A2, B1) == G && !Related(A2, B1)
  {
    assert At(A2, 1) == A1;
  }

  /** A chain two blocks long, left for a single heavier block: the second block of the old chain
      stays indexed above the new head. */
  method StaleIndexExample() returns (bc: BlockChain)
    ensures bc.Valid() && bc.current == B1 && Number(B1) == 1 && 2 in bc.canon && !bc.Exact()
  {
    hide OncePerPath, TD, Number, Common, Related, Gravity, Below, Indexed, Stray;
    ExampleFacts();
    bc := new BlockChain(G);
    var s1 := bc.WriteBlockWithState(A1, false, false, false, false);
    var s2 := bc.WriteBlockWithState(A2, false, false, false, false);
    var s3 := bc.WriteBlockWithState(B1, false, false, false, false);
    NothingBetween(bc.canon, 1);
  }

  lemma NothingBetween(canon: map<nat, Block>, n: nat)
    requires Closed(canon) && !UpTo(canon, n)
    ensures n + 1 in canon
  {
    var m: nat :| m in canon && m > n;
    assert m == n + 1 || n + 1 < m;
  }

  /** With finality on, a branch that forked off twenty-five thousand seconds before the head has to
      be thirty-one times as heavy. */
  lemma FinalityBound(common: Block, head: Block, block: Block)
    requires IsAncestor(common, head)
    ensures Gravity(common, head, block) ==> TD(block) >= TD(head)
    ensures Age(common, head) >= Mess.X_CAP ==>
              (Gravity(common, head, block) <==> TD(block) - TD(common) >= 31 * (TD(head) - TD(common)))
  {
    hide Mess.Accepts, TD, IsAncestor, Age;
    Lighter(common, head);
    Mess.AcceptanceBounds(Age(common, head), TD(head) - TD(common), TD(block) - TD(common));
  }

  lemma {:induction false} Lighter(a: Block, b: Block)
    requires IsAncestor(a, b)
    ensures TD(a) <= TD(b)
  {
    if a != b {
      Lighter(a, b.parent);
    }
  }
}
