/** Blocks and the tree they form. A block hash commits to the parent hash, so with collision-free
    hashing a hash determines the block and all its ancestors; blocks therefore stand for their
    own hashes and carry their parents. The same values serve as headers. */
module Chain {
  import opened Collections

  datatype Block =
    | Genesis(id: nat, difficulty: nat, time: nat, txs: seq<nat>)
    | Child(parent: Block, id: nat, difficulty: nat, time: nat, txs: seq<nat>)

  function Number(b: Block): nat {
    if b.Genesis? then 0 else Number(b.parent) + 1
  }

  function ParentOf(b: Block): Option<Block> {
    if b.Genesis? then None else Some(b.parent)
  }

  /** The total difficulty of the path from genesis to b. */
  function TD(b: Block): nat {
    if b.Genesis? then b.difficulty else TD(b.parent) + b.difficulty
  }

  /** No block of the given ones has a heavier path than the head, or one as heavy and shorter. */
  ghost predicate Best(blocks: set<Block>, head: Block) {
    forall b :: b in blocks ==> TD(b) < TD(head) || (TD(b) == TD(head) && Number(head) <= Number(b))
  }

  /** The ancestor of b at height n, found by walking parents. */
  function At(b: Block, n: nat): Block
    requires n <= Number(b)
  {
    if Number(b) == n then b else At(b.parent, n)
  }

  ghost predicate IsAncestor(a: Block, b: Block) {
    Number(a) <= Number(b) && At(b, Number(a)) == a
  }

  lemma {:induction false} AtFacts(b: Block, n: nat)
    requires n <= Number(b)
    ensures Number(At(b, n)) == n
    ensures n < Number(b) ==> b.Child? && At(b, n) == At(b.parent, n)
    ensures n > 0 ==> At(b, n).Child? && At(b, n).parent == At(b, n - 1)
  {
    if n < Number(b) {
      AtFacts(b.parent, n);
    }
  }

  lemma AtSelf(b: Block)
    ensures At(b, Number(b)) == b
  {
  }

  /** Ancestors of ancestors are ancestors. */
  lemma {:induction false} AtAt(b: Block, n: nat, m: nat)
    requires m <= n <= Number(b)
    ensures Number(At(b, n)) == n && At(At(b, n), m) == At(b, m)
  {
    if n < Number(b) {
      AtAt(b.parent, n, m);
    }
  }

  /** A set of known blocks with one genesis, closed under parents. */
  ghost predicate Tree(store: set<Block>, genesis: Block) {
    && genesis.Genesis? && genesis in store
    && forall b :: b in store ==> b == genesis || (b.Child? && b.parent in store)
  }

  lemma {:induction false} TreeAt(store: set<Block>, genesis: Block, b: Block, n: nat)
    requires Tree(store, genesis) && b in store && n <= Number(b)
    ensures At(b, n) in store && At(b, 0) == genesis
  {
    if b.Child? {
      TreeAt(store, genesis, b.parent, if n < Number(b) then n else 0);
    }
  }

  /** The index holds exactly the path from genesis to head, and nothing above the head. */
  ghost predicate PathIndex(canon: map<nat, Block>, head: Block) {
    && (forall n :: n in canon <==> 0 <= n <= Number(head))
    && (forall n :: 0 <= n <= Number(head) ==> canon[n] == At(head, n))
  }

  /** Every entry whose height is below another entry's is that entry's ancestor. */
  ghost predicate Linked(canon: map<nat, Block>) {
    && (forall n :: n in canon ==> Number(canon[n]) == n)
    && (forall n, m :: n in canon && 0 <= m < n ==> m in canon && canon[m] == At(canon[n], m))
  }

  lemma PathIsLinked(canon: map<nat, Block>, head: Block)
    requires PathIndex(canon, head)
    ensures Linked(canon)
  {
    forall n | n in canon ensures Number(canon[n]) == n { AtFacts(head, n); }
    forall n, m | n in canon && 0 <= m < n ensures m in canon && canon[m] == At(canon[n], m) { AtAt(head, n, m); }
  }

  /** The ancestor k generations up. */
  function Up(b: Block, k: nat): Block
    requires k <= Number(b)
  {
    At(b, Number(b) - k)
  }
}
