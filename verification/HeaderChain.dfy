/** The header chain: stored headers, total difficulties, the canonical number index and the
    caches in front of them (core/headerchain.go). */
module Headers {
  import opened Collections
  import opened Chain

  datatype Status = Canonical | Side | UnknownAncestor

  datatype HeaderOp = Write(header: Block, coin: bool) | RewindTo(height: nat)

  /** A new header takes over when its path has more difficulty, or as much in fewer blocks; equal
      length is decided by a coin. */
  predicate TakesOver(header: Block, current: Block, coin: bool) {
    || TD(header) > TD(current)
    || (TD(header) == TD(current) && (Number(header) < Number(current) || (Number(header) == Number(current) && coin)))
  }

  /** The stored headers and the current one. */
  datatype Heads = Heads(store: set<Block>, current: Block)

  ghost function Moved(h: Heads, op: HeaderOp): Heads {
    match op
    case Write(header, coin) =>
      if header.Genesis? || header.parent !in h.store then h
      else Heads(h.store + {header}, if TakesOver(header, h.current, coin) then header else h.current)
    case RewindTo(height) =>
      if Number(h.current) <= height then h
      else Heads((set b | b in h.store && Number(b) <= height), At(h.current, height))
  }

  ghost function Played(h: Heads, ops: seq<HeaderOp>): Heads {
    if ops == [] then h else Moved(Played(h, ops[..|ops| - 1]), ops[|ops| - 1])
  }

  /** Between paths that differ in weight or length one always takes over from the other, whatever the
      coin; the coin decides exactly the ties. */
  lemma TakeoverOrder(a: Block, b: Block)
    ensures TakesOver(a, b, true) != TakesOver(a, b, false) <==> TD(a) == TD(b) && Number(a) == Number(b)
    ensures TD(a) != TD(b) || Number(a) != Number(b) ==> (TakesOver(a, b, false) <==> !TakesOver(b, a, true))
    ensures TD(a) == TD(b) && Number(a) < Number(b) ==> TakesOver(a, b, false)
  {
  }

  /** Whether or not a new header takes over, the better one is current afterwards. */
  lemma BestHeader(store: set<Block>, current: Block, header: Block, current': Block)
    requires Best(store, current)
    requires if current' == header then TakesOver(header, current, true) || header == current
             else current' == current && !TakesOver(header, current, false)
    ensures Best(store + {header}, current')
  {
    hide TD, Number;
  }

  /** Where the parent path of head meets the index, the index below is already right. */
  lemma Meets(canon: map<nat, Block>, current: Block, head: Block)
    requires PathIndex(canon, current) && Number(head) in canon && canon[Number(head)] == head
    ensures forall n: nat :: n <= Number(head) ==> n in canon && canon[n] == At(head, n)
  {
    forall n: nat | n <= Number(head) ensures n in canon && canon[n] == At(head, n) {
      AtAt(current, Number(head), n);
    }
  }

  /** Midway through rewriting the index: writes holds the parent path of a header above head. */
  ghost predicate Rewriting(writes: map<nat, Block>, parent: Block, head: Block) {
    && IsAncestor(head, parent)
    && (forall n :: n in writes <==> Number(head) < n <= Number(parent))
    && (forall n :: n in writes ==> writes[n] == At(parent, n))
  }

  lemma RewriteStart(parent: Block)
    ensures Rewriting(map[], parent, parent)
  {
  }

  lemma RewriteStep(writes: map<nat, Block>, parent: Block, head: Block)
    requires Rewriting(writes, parent, head) && 0 < Number(head)
    ensures head.Child? && Number(head.parent) == Number(head) - 1
    ensures Rewriting(writes[Number(head) := head], parent, head.parent)
  {
    hide Number, At;
    AboveGenesis(head);
    ParentAncestor(head, parent);
  }

  lemma AboveGenesis(b: Block)
    requires 0 < Number(b)
    ensures b.Child?
  {
  }

  lemma Rewritten(canon: map<nat, Block>, current: Block, header: Block, head: Block,
                  writes: map<nat, Block>, deletes: set<nat>, canon': map<nat, Block>)
    requires PathIndex(canon, current) && header.Child? && Rewriting(writes, header.parent, head)
    requires Number(head) in canon && canon[Number(head)] == head
    requires forall n :: n in canon && n > Number(header) ==> n in deletes
    requires forall n :: n in deletes ==> n > Number(header)
    requires canon' == canon - deletes + writes[Number(header) := header]
    ensures PathIndex(canon', header)
  {
    Meets(canon, current, head);
    forall n: nat ensures n in canon' <==> n <= Number(header) {}
    forall n: nat | n <= Number(header) ensures canon'[n] == At(header, n) {
      if n <= Number(head) {
        AtAt(header.parent, Number(head), n);
      }
    }
  }

  /** All stored headers at a height. */
  function AllAt(store: set<Block>, n: nat): set<Block> {
    set b | b in store && Number(b) == n
  }

  ghost function AboveOrAt(store: set<Block>, n: nat): set<Block> {
    set b | b in store && Number(b) >= n
  }

  lemma AboveShrinks(store: set<Block>, n: nat)
    requires AllAt(store, n) != {}
    ensures AboveOrAt(store, n + 1) < AboveOrAt(store, n)
  {
    var b :| b in AllAt(store, n);
    assert b in AboveOrAt(store, n) && b !in AboveOrAt(store, n + 1);
  }

  lemma Occupied(store: set<Block>, genesis: Block, b: Block, n: nat)
    requires Tree(store, genesis) && b in store && n <= Number(b)
    ensures AllAt(store, n) != {}
  {
    TreeAt(store, genesis, b, n);
    AtFacts(b, n);
    assert At(b, n) in AllAt(store, n);
  }

  /** Parents are stored, so no height above an empty one holds anything. */
  lemma NoGaps(store: set<Block>, genesis: Block, n: nat)
    requires Tree(store, genesis) && AllAt(store, n) == {}
    ensures forall m: nat :: m >= n ==> AllAt(store, m) == {}
  {
    forall b | b in store ensures Number(b) < n {
      if Number(b) >= n {
        Occupied(store, genesis, b, n);
      }
    }
  }

  /** Midway through a rewind: everything above the current header is marked for deletion. */
  ghost predicate Rewinding(store: set<Block>, first: Block, current: Block, head: nat, deleted: set<Block>, unlinked: set<nat>, origin: bool) {
    && IsAncestor(current, first)
    && (if origin then current == first && deleted == {} && unlinked == {} else
        && Number(first) > head && Number(current) >= head
        && (forall b :: b in deleted <==> b in store && Number(b) > Number(current))
        && (forall n: nat :: n in unlinked <==> n > Number(current) && AllAt(store, n) != {}))
  }

  lemma RewindStart(store: set<Block>, current: Block, head: nat)
    ensures Rewinding(store, current, current, head, {}, {}, true)
  {
  }

  lemma NotGenesis(store: set<Block>, genesis: Block, b: Block, head: nat)
    requires Tree(store, genesis) && b in store && Number(b) > head
    ensures b.Child? && b.parent in store && Number(b.parent) == Number(b) - 1 && AllAt(store, Number(b)) != {}
  {
    assert b in AllAt(store, Number(b));
  }

  lemma ParentAncestor(a: Block, b: Block)
    requires IsAncestor(a, b) && a.Child?
    ensures IsAncestor(a.parent, b) && Number(a.parent) == Number(a) - 1
  {
    AtFacts(b, Number(a));
  }

  lemma Listed(store: set<Block>)
    ensures forall b :: b in store ==> AllAt(store, Number(b)) != {}
  {
    forall b | b in store ensures AllAt(store, Number(b)) != {} {
      assert b in AllAt(store, Number(b));
    }
  }

  lemma RewindStep(store: set<Block>, first: Block, current: Block, head: nat, deleted: set<Block>, unlinked: set<nat>, origin: bool,
                   nums: seq<nat>, deleted': set<Block>, unlinked': set<nat>)
    requires Rewinding(store, first, current, head, deleted, unlinked, origin)
    requires current in store && current.Child? && Number(current) > head
    requires origin ==> forall n: nat :: n in nums <==> n == Number(current) || (n > Number(current) && AllAt(store, n) != {})
    requires !origin ==> nums == [Number(current)]
    requires deleted' == deleted + set b | b in store && Number(b) in nums
    requires forall n :: n in unlinked' <==> n in unlinked || n in nums
    ensures Rewinding(store, first, current.parent, head, deleted', unlinked', false)
  {
    hide Number, At, AllAt, IsAncestor;
    ParentAncestor(current, first);
    Listed(store);
  }

  /** Cutting a tree at a height leaves a tree. */
  lemma CutTree(store: set<Block>, genesis: Block, n: nat, deleted: set<Block>)
    requires Tree(store, genesis) && forall b :: b in deleted <==> b in store && Number(b) > n
    ensures Tree(store - deleted, genesis)
  {
  }

  /** Unlinking every stored height above an ancestor leaves exactly its path. */
  lemma CutPath(store: set<Block>, genesis: Block, canon: map<nat, Block>, first: Block, current: Block, unlinked: set<nat>)
    requires Tree(store, genesis) && first in store && PathIndex(canon, first) && IsAncestor(current, first)
    requires forall n: nat :: n in unlinked <==> n > Number(current) && AllAt(store, n) != {}
    ensures PathIndex(canon - unlinked, current)
  {
    hide Tree, Number, AllAt, At;
    forall n: nat | n <= Number(first)
      ensures AllAt(store, n) != {}
      ensures n <= Number(current) ==> At(first, n) == At(current, n)
    {
      Occupied(store, genesis, first, n);
      if n <= Number(current) {
        AtAt(first, Number(current), n);
      }
    }
  }

  /** Deleting everything gathered leaves a tree and exactly the path of the new head. */
  lemma Rewind(store: set<Block>, genesis: Block, canon: map<nat, Block>, first: Block, current: Block, head: nat,
               deleted: set<Block>, unlinked: set<nat>, origin: bool)
    requires Tree(store, genesis) && first in store && current in store && PathIndex(canon, first)
    requires Rewinding(store, first, current, head, deleted, unlinked, origin) && Number(current) <= head
    ensures Tree(store - deleted, genesis) && current in store - deleted && PathIndex(canon - unlinked, current)
    ensures Number(first) <= head ==> current == first && store - deleted == store
    ensures Number(first) > head ==>
              current == At(first, head) && store - deleted == set b | b in store && Number(b) <= head
  {
    hide Tree, Number, AllAt, At, PathIndex;
    if origin {
      assert canon - unlinked == canon && store - deleted == store;
    } else {
      CutTree(store, genesis, head, deleted);
      CutPath(store, genesis, canon, first, current, unlinked);
      AtSelf(first);
    }
  }

  /** The genesis is the only stored header at height zero. */
  lemma OnlyRoot(store: set<Block>, genesis: Block, b: Block)
    requires Tree(store, genesis) && b in store
    ensures if Number(b) == 0 then b == genesis else b.Child? && b.parent in store
  {
    if b == genesis {
      assert b.Genesis? && Number(b) == 0;
    } else {
      assert b.Child? && Number(b) == Number(b.parent) + 1;
    }
  }

  predicate OnIndex(canon: map<nat, Block>, b: Block) {
    Number(b) in canon && canon[Number(b)] == b
  }

  /** How many parents separate a block from the indexed chain. */
  function Detour(canon: map<nat, Block>, b: Block): nat {
    if OnIndex(canon, b) || b.Genesis? then 0 else 1 + Detour(canon, b.parent)
  }

  lemma OneUp(b: Block)
    requires 1 <= Number(b)
    ensures b.Child? && Up(b, 1) == b.parent
  {
    AtFacts(b, Number(b) - 1);
    AtSelf(b.parent);
  }

  /** Midway through an ancestor walk: hash is the ancestor reached so far, all off the index. */
  ghost predicate Walking(canon: map<nat, Block>, b: Block, ancestor: nat, hash: Block, todo: nat) {
    && todo <= ancestor <= Number(b) && hash == Up(b, ancestor - todo)
    && Detour(canon, b) == ancestor - todo + Detour(canon, hash)
  }

  lemma WalkStart(canon: map<nat, Block>, b: Block, ancestor: nat)
    requires ancestor <= Number(b)
    ensures Walking(canon, b, ancestor, b, ancestor)
  {
  }

  lemma WalkFacts(canon: map<nat, Block>, b: Block, ancestor: nat, hash: Block, todo: nat)
    requires Walking(canon, b, ancestor, hash, todo)
    ensures Number(hash) == Number(b) - (ancestor - todo)
    ensures OnIndex(canon, hash) ==> Detour(canon, hash) == 0
    ensures !OnIndex(canon, hash) && todo > 0 ==> Detour(canon, hash) > 0
  {
    AtFacts(b, Number(b) - (ancestor - todo));
  }

  lemma WalkStep(canon: map<nat, Block>, b: Block, ancestor: nat, hash: Block, todo: nat)
    requires Walking(canon, b, ancestor, hash, todo) && todo > 0 && !OnIndex(canon, hash)
    ensures hash.Child? && Walking(canon, b, ancestor, hash.parent, todo - 1)
  {
    AtFacts(b, Number(b) - (ancestor - todo));
  }

  /** On the index, the remaining generations can be skipped at once. */
  lemma Shortcut(canon: map<nat, Block>, current: Block, b: Block, ancestor: nat, hash: Block, todo: nat)
    requires PathIndex(canon, current) && Walking(canon, b, ancestor, hash, todo) && OnIndex(canon, hash)
    ensures todo <= Number(hash) && Number(hash) - todo in canon && canon[Number(hash) - todo] == Up(b, ancestor)
  {
    AtAt(b, Number(b) - (ancestor - todo), Number(b) - ancestor);
    AtAt(current, Number(hash), Number(hash) - todo);
  }

  class HeaderChain {
    const genesis: Block
    var store: set<Block>
    var tds: map<Block, nat>
    var canon: map<nat, Block>
    var current: Block
    var headerCache: set<Block>
    var tdCache: map<Block, nat>
    var numberCache: map<Block, nat>

    /** The store is a tree; difficulties are sums over paths; the index is the path of the current
        header with nothing above it; caches repeat what is stored. */
    ghost predicate Valid()
      reads this
    {
      Stored() && current in store && PathIndex(canon, current) && Cached()
    }

    ghost predicate Stored()
      reads this`store, this`tds
    {
      && Tree(store, genesis)
      && tds.Keys == store && forall b :: b in store ==> tds[b] == TD(b)
    }

    ghost predicate Cached()
      reads this`store, this`headerCache, this`tdCache, this`numberCache
    {
      && headerCache <= store
      && (forall b :: b in tdCache ==> b in store && tdCache[b] == TD(b))
      && (forall b :: b in numberCache ==> b in store && numberCache[b] == Number(b))
    }

    /** No stored header has a heavier path than the current one. */
    ghost predicate Heaviest()
      reads this`store, this`current
    {
      forall b :: b in store ==> TD(b) <= TD(current)
    }

    constructor (genesis: Block)
      requires genesis.Genesis?
      ensures Valid() && this.genesis == genesis && current == genesis && store == {genesis} && Heaviest() && Best(store, current)
    {
      this.genesis := genesis;
      store, tds, canon, current := {genesis}, map[genesis := genesis.difficulty], map[0 := genesis], genesis;
      headerCache, tdCache, numberCache := {}, map[], map[];
    }

    /** Looks a header up in the cache, then in the store. */
    method GetHeader(b: Block) returns (r: Option<Block>)
      requires Stored() && Cached()
      modifies this`headerCache
      ensures Cached() && r == if b in store then Some(b) else None
    {
      if b in headerCache {
        return Some(b);
      }
      if b !in store {
        return None;
      }
      var evicted: set<Block> := *;
      headerCache := headerCache + {b} - evicted;
      r := Some(b);
    }

    /** Looks a total difficulty up in the cache, then in the store. */
    method GetTd(b: Block) returns (r: Option<nat>)
      requires Stored() && Cached()
      modifies this`tdCache
      ensures Cached() && r == if b in store then Some(TD(b)) else None
    {
      if b in tdCache {
        return Some(tdCache[b]);
      }
      if b !in store {
        return None;
      }
      var evicted: set<Block> := *;
      tdCache := tdCache[b := tds[b]] - evicted;
      r := Some(tds[b]);
    }

    /** Writes a header and its total difficulty to the database. */
    method Store(header: Block, td: nat)
      requires Stored() && Cached() && header.Child? && header.parent in store && td == TD(header)
      modifies this`store, this`tds
      ensures Stored() && Cached() && store == old(store) + {header}
    {
      tds := tds[header := td];
      store := store + {header};
    }

    /** Adds a stored header to the three caches, which may drop anything they hold. */
    method Remember(header: Block, td: nat)
      requires Cached() && header in store && td == TD(header)
      modifies this`headerCache, this`tdCache, this`numberCache
      ensures Cached()
    {
      var evicted: set<Block> := *;
      tdCache := tdCache[header := td] - evicted;
      headerCache := headerCache + {header} - evicted;
      numberCache := numberCache[header := Number(header)] - evicted;
    }

    /** Stores a header whose parent is known and reroutes the canonical chain when it takes over. */
    method WriteHeader(header: Block, coin: bool) returns (status: Status)
      requires Valid()
      modifies this
      ensures Valid()
      ensures header.Genesis? || header.parent !in old(store) ==>
                status == UnknownAncestor && store == old(store) && canon == old(canon) && current == old(current)
      ensures header.Child? && header.parent in old(store) ==>
                && store == old(store) + {header} && status != UnknownAncestor
                && (status == Canonical <==> TakesOver(header, old(current), coin))
                && (status == Canonical ==> current == header)
                && (status == Side ==> current == old(current) && canon == old(canon))
      ensures Heads(store, current) == Moved(old(Heads(store, current)), Write(header, coin))
      ensures TD(current) >= TD(old(current))
      ensures old(Heaviest()) ==> Heaviest()
      ensures old(Best(store, current)) ==> Best(store, current)
    {
      hide PathIndex, TD, Number, At, Stored, Cached, Tree, Best;
      if header.Genesis? {
        return UnknownAncestor;
      }
      var ptd := GetTd(header.parent);
      if ptd == None {
        return UnknownAncestor;
      }
      var localTd := GetTd(current);
      var externTd := header.difficulty + ptd.value;
      Unfold(header);
      Store(header, externTd);
      var reorg := externTd > localTd.value;
      if !reorg && externTd == localTd.value {
        if Number(header) < Number(current) {
          reorg := true;
        } else if Number(header) == Number(current) {
          reorg := coin;
        }
      }
      if reorg {
        Reroute(header);
        status := Canonical;
      } else {
        status := Side;
      }
      if old(Best(store, current)) {
        BestHeader(old(store), old(current), header, current);
      }
      Remember(header, externTd);
    }

    lemma Unfold(header: Block)
      requires header.Child?
      ensures TD(header) == TD(header.parent) + header.difficulty && Number(header) == Number(header.parent) + 1
    {
    }

    /** Makes the path of a stored header canonical, in one batch of index changes. */
    method Reroute(header: Block)
      requires Stored() && Cached() && PathIndex(canon, current) && header in store && header.Child? && current in store
      modifies this`canon, this`current, this`headerCache
      ensures Cached() && current == header && PathIndex(canon, header)
    {
      hide PathIndex, At;
      var number := Number(header);
      var deletes: set<nat> := {};
      var i := number + 1;
      while i in canon
        invariant number < i
        invariant forall n :: n in deletes <==> number < n < i
        invariant unchanged(this)
        decreases Number(current) + 1 - i
      {
        InPath(canon, current, i);
        deletes := deletes + {i};
        i := i + 1;
      }
      NothingBeyond(canon, current, i);
      var writes: map<nat, Block> := map[];
      var head := header.parent;
      RewriteStart(header.parent);
      TreeAt(store, genesis, header, 0);
      while !(Number(head) in canon && canon[Number(head)] == head)
        invariant head in store && Rewriting(writes, header.parent, head)
        invariant Cached() && unchanged(`canon) && unchanged(`current)
        decreases Number(head)
      {
        GenesisIsCanonical(canon, current, head);
        RewriteStep(writes, header.parent, head);
        writes := writes[Number(head) := head];
        var parent := GetHeader(head.parent);
        head := parent.value;
      }
      Rewritten(canon, current, header, head, writes, deletes, canon - deletes + writes[number := header]);
      canon := canon - deletes + writes[number := header];
      current := header;
    }

    lemma InPath(canon: map<nat, Block>, current: Block, i: nat)
      requires PathIndex(canon, current) && i in canon
      ensures i <= Number(current)
    {
    }

    lemma NothingBeyond(canon: map<nat, Block>, current: Block, i: nat)
      requires PathIndex(canon, current) && i !in canon
      ensures forall n :: n in canon ==> n < i
    {
    }

    lemma GenesisIsCanonical(canon: map<nat, Block>, current: Block, head: Block)
      requires PathIndex(canon, current) && Tree(store, genesis) && current in store && head in store
      requires !(Number(head) in canon && canon[Number(head)] == head)
      ensures 0 < Number(head) && head.Child? && head.parent in store
    {
      hide At, Number, Tree;
      TreeAt(store, genesis, current, 0);
      assert 0 in canon && canon[0] == genesis;
      OnlyRoot(store, genesis, head);
    }

    /** The heights above num that hold headers, found by counting up to the first empty one. */
    method Leftovers(num: nat) returns (nums: seq<nat>)
      requires Stored()
      ensures forall n: nat :: n in nums <==> n > num && AllAt(store, n) != {}
    {
      nums := [];
      var n := num + 1;
      while AllAt(store, n) != {}
        invariant num < n && forall k: nat :: k in nums <==> num < k < n
        invariant forall k: nat :: num < k < n ==> AllAt(store, k) != {}
        decreases AboveOrAt(store, n)
      {
        AboveShrinks(store, n);
        nums := [n] + nums;
        n := n + 1;
      }
      NoGaps(store, genesis, n);
    }

    /** Collects what has to go at each of the listed heights. */
    method Gather(nums: seq<nat>, deleted: set<Block>, unlinked: set<nat>) returns (deleted': set<Block>, unlinked': set<nat>)
      requires forall n :: n in nums ==> AllAt(store, n) != {}
      ensures deleted' == deleted + set b | b in store && Number(b) in nums
      ensures forall n :: n in unlinked' <==> n in unlinked || n in nums
    {
      deleted', unlinked' := deleted, unlinked;
      for i := 0 to |nums|
        invariant deleted' == deleted + set b | b in store && Number(b) in nums[..i]
        invariant forall n :: n in unlinked' <==> n in unlinked || n in nums[..i]
      {
        var hashes := AllAt(store, nums[i]);
        if hashes == {} {
          hashes := {current};
        }
        deleted' := deleted' + hashes;
        unlinked' := unlinked' + {nums[i]};
        assert nums[..i + 1] == nums[..i] + [nums[i]];
      }
      assert nums[..|nums|] == nums;
    }

    /** Writes the collected deletions and empties the caches. */
    method Flush(deleted: set<Block>, unlinked: set<nat>)
      requires Stored() && Tree(store - deleted, genesis)
      modifies this`store, this`tds, this`canon, this`headerCache, this`tdCache, this`numberCache
      ensures Stored() && Cached() && store == old(store) - deleted && canon == old(canon) - unlinked
    {
      store := store - deleted;
      tds := tds - deleted;
      canon := canon - unlinked;
      headerCache, tdCache, numberCache := {}, map[], map[];
    }

    lemma StoredTree()
      requires Stored()
      ensures Tree(store, genesis)
    {
    }

    /** Rewinds to a height: every header above it, on any branch, is deleted. */
    method SetHead(head: nat)
      requires Valid()
      modifies this
      ensures Valid() && Heads(store, current) == Moved(old(Heads(store, current)), RewindTo(head))
      ensures Number(old(current)) <= head ==> current == old(current) && store == old(store)
      ensures Number(old(current)) > head ==>
                current == At(old(current), head) && store == set b | b in old(store) && Number(b) <= head
    {
      hide PathIndex, At, Number, Rewinding, Tree, AllAt, Stored, Cached;
      var deleted: set<Block>, unlinked: set<nat> := {}, {};
      var origin := true;
      RewindStart(store, current, head);
      while Number(current) > head
        invariant unchanged(`store) && unchanged(`tds) && unchanged(`canon) && Stored() && Cached()
        invariant current in store && Rewinding(store, old(current), current, head, deleted, unlinked, origin)
        decreases Number(current)
      {
        var num := Number(current);
        var nums := [num];
        StoredTree();
        NotGenesis(store, genesis, current, head);
        var parent := GetHeader(current.parent);
        if origin {
          var above := Leftovers(num);
          nums := above + nums;
        }
        var deleted', unlinked' := Gather(nums, deleted, unlinked);
        RewindStep(store, old(current), current, head, deleted, unlinked, origin, nums, deleted', unlinked');
        deleted, unlinked, origin := deleted', unlinked', false;
        current := if parent.Some? then parent.value else genesis;
      }
      StoredTree();
      Rewind(store, genesis, canon, old(current), current, head, deleted, unlinked, origin);
      Flush(deleted, unlinked);
    }

    predicate IsCanonical(b: Block)
      reads this`canon
    {
      OnIndex(canon, b)
    }

    /** Looks a header's height up by hash alone. */
    method GetBlockNumber(b: Block) returns (r: Option<nat>)
      requires Stored() && Cached()
      modifies this`numberCache
      ensures Cached() && r == if b in store then Some(Number(b)) else None
    {
      if b in numberCache {
        return Some(numberCache[b]);
      }
      if b !in store {
        return None;
      }
      var evicted: set<Block> := *;
      numberCache := numberCache[b := Number(b)] - evicted;
      r := Some(Number(b));
    }

    method GetHeaderByHash(b: Block) returns (r: Option<Block>)
      requires Stored() && Cached()
      modifies this`headerCache, this`numberCache
      ensures Cached() && r == if b in store then Some(b) else None
    {
      var number := GetBlockNumber(b);
      if number == None {
        return None;
      }
      r := GetHeader(b);
    }

    method GetHeaderByNumber(n: nat) returns (r: Option<Block>)
      requires Valid()
      modifies this`headerCache
      ensures Cached() && (r.Some? <==> n <= Number(current))
      ensures r.Some? ==> r.value in store && IsCanonical(r.value) && Number(r.value) == n
    {
      if n !in canon {
        return None;
      }
      TreeAt(store, genesis, current, n);
      AtFacts(current, n);
      r := GetHeader(canon[n]);
    }

    /** The ancestor some generations up, read off the canonical index as soon as the walk meets it;
        the budget bounds the walk outside the canonical chain. */
    method GetAncestor(b: Block, ancestor: nat, maxNonCanonical: nat) returns (r: Option<Block>, left: nat)
      requires Valid()
      modifies this`headerCache
      ensures Cached() && left <= maxNonCanonical
      ensures r.Some? ==> ancestor <= Number(b) && r.value == Up(b, ancestor) && (b in store ==> r.value in store)
      ensures b in store ==> (r.Some? <==>
                ancestor <= Number(b) && (ancestor == 1 || Detour(canon, b) <= maxNonCanonical || ancestor <= maxNonCanonical))
      ensures b in store && r.Some? && ancestor != 1 ==>
                left == maxNonCanonical - (if Detour(canon, b) < ancestor then Detour(canon, b) else ancestor)
      ensures b !in store ==> (r.Some? <==> ancestor == 0)
      ensures IsCanonical(b) || ancestor == 1 ==> left == maxNonCanonical
    {
      hide PathIndex, Tree, At, Number, Stored, Detour;
      left := maxNonCanonical;
      if ancestor > Number(b) {
        return None, left;
      }
      if ancestor == 1 {
        var header := GetHeader(b);
        if header == None {
          return None, left;
        }
        OneUp(b);
        StoredAncestor(b, 1);
        return Some(b.parent), left;
      }
      var hash: Block, todo: nat := b, ancestor;
      WalkStart(canon, b, ancestor);
      while todo != 0
        invariant Cached() && todo <= ancestor && left == maxNonCanonical - (ancestor - todo)
        invariant Walking(canon, b, ancestor, hash, todo)
        invariant b !in store || IsCanonical(b) ==> todo == ancestor
        invariant todo == ancestor ==> hash == b
      {
        WalkFacts(canon, b, ancestor, hash, todo);
        if Number(hash) in canon && canon[Number(hash)] == hash {
          Shortcut(canon, current, b, ancestor, hash, todo);
          if b in store {
            StoredAncestor(b, ancestor);
          } else {
            StoredIndex(hash);
          }
          return Some(canon[Number(hash) - todo]), left;
        }
        if left == 0 {
          return None, left;
        }
        left := left - 1;
        var header := GetHeader(hash);
        if b in store {
          StoredAncestor(b, ancestor - todo);
        }
        if header == None {
          return None, left;
        }
        WalkStep(canon, b, ancestor, hash, todo);
        hash, todo := hash.parent, todo - 1;
      }
      WalkFacts(canon, b, ancestor, hash, todo);
      if b in store {
        StoredAncestor(b, ancestor);
      }
      r := Some(hash);
    }

    lemma StoredAncestor(b: Block, k: nat)
      requires Stored() && b in store && k <= Number(b)
      ensures Up(b, k) in store
    {
      TreeAt(store, genesis, b, Number(b) - k);
    }

    lemma StoredIndex(b: Block)
      requires Valid() && IsCanonical(b)
      ensures b in store
    {
      TreeAt(store, genesis, current, Number(b));
    }

    /** Whatever is written and rewound, the index stays the path of the current header; without
        rewinds the current header stays the heaviest of all, and the shortest of those. */
    method Run(ops: seq<HeaderOp>)
      requires Valid()
      modifies this
      ensures Valid() && Heads(store, current) == Played(old(Heads(store, current)), ops)
      ensures (forall op :: op in ops ==> op.Write?) ==>
                && TD(current) >= TD(old(current)) && old(store) <= store && (old(Heaviest()) ==> Heaviest())
                && (old(Best(store, current)) ==> Best(store, current))
    {
      hide TD, Number, At, PathIndex, Stored, Cached, Heaviest, TakesOver, Best, Moved;
      for i := 0 to |ops|
        invariant Valid() && Heads(store, current) == Played(old(Heads(store, current)), ops[..i])
        invariant (forall op :: op in ops ==> op.Write?) ==>
                    && TD(current) >= TD(old(current)) && old(store) <= store && (old(Heaviest()) ==> Heaviest())
                    && (old(Best(store, current)) ==> Best(store, current))
      {
        assert ops[i] in ops && ops[..i + 1][..i] == ops[..i];
        match ops[i] {
          case Write(header, coin) => var _ := WriteHeader(header, coin);
          case RewindTo(height) => SetHead(height);
        }
      }
      assert ops[..|ops|] == ops;
    }
  }
}
