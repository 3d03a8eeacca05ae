/** The pool-wide lookup with its slot counter, and the price heap that is cleaned up lazily
    (core/tx_pool.go, core/tx_list.go). */
module Priced {
  import opened Collections
  import opened TxTypes
  import Heap

  ghost function Slots(all: set<Tx>): nat {
    Sum(map tx | tx in all :: NumSlots(tx))
  }

  lemma SlotsAdd(all: set<Tx>, tx: Tx)
    requires tx !in all
    ensures Slots(all + {tx}) == Slots(all) + NumSlots(tx)
  {
    var m := map t | t in all :: NumSlots(t);
    SumUpdate(m, tx, NumSlots(tx));
    assert m[tx := NumSlots(tx)] == map t | t in all + {tx} :: NumSlots(t);
  }

  lemma SlotsRemove(all: set<Tx>, tx: Tx)
    requires tx in all
    ensures Slots(all - {tx}) == Slots(all) - NumSlots(tx)
  {
    SlotsAdd(all - {tx}, tx);
    assert (all - {tx}) + {tx} == all;
  }

  /** A pool never uses fewer slots than it has transactions. */
  lemma {:induction false} SlotsAtLeastCount(all: set<Tx>)
    ensures |all| <= Slots(all)
  {
    if all != {} {
      var tx :| tx in all;
      SlotsAtLeastCount(all - {tx});
      SlotsRemove(all, tx);
    }
  }

  class TxLookup {
    var all: set<Tx>
    var slots: int

    ghost predicate Valid()
      reads this
    {
      slots == Slots(all)
    }

    constructor ()
      ensures Valid() && all == {}
    {
      all, slots := {}, 0;
    }

    method Add(tx: Tx)
      requires Valid() && tx !in all
      modifies this
      ensures Valid() && all == old(all) + {tx}
    {
      SlotsAdd(all, tx);
      slots := slots + NumSlots(tx);
      all := all + {tx};
    }

    /** Looking up the slots of an absent transaction would dereference nil. */
    method Remove(tx: Tx)
      requires Valid() && tx in all
      modifies this
      ensures Valid() && all == old(all) - {tx}
    {
      SlotsRemove(all, tx);
      slots := slots - NumSlots(tx);
      all := all - {tx};
    }
  }

  /** Heap order: cheaper first, and among equals the higher nonce first. */
  function PriceRank(tx: Tx): Heap.Rank {
    var nonce: int := tx.nonce;
    Heap.Rank(tx.price, -nonce)
  }

  predicate NoDearer(a: Tx, b: Tx) {
    Heap.Le(PriceRank(a), PriceRank(b))
  }

  /** Heap order in terms of the transactions. */
  lemma NoDearerIff(a: Tx, b: Tx)
    ensures NoDearer(a, b) <==> a.price < b.price || (a.price == b.price && a.nonce >= b.nonce)
  {
  }

  /** Every pooled transaction has an entry in the heap, and the entries beyond one per pooled
      transaction are accounted for by the stale counter. */
  ghost predicate Covers(all: set<Tx>, items: seq<Tx>, stales: int) {
    && Heap.IsHeap(items, PriceRank)
    && (forall tx :: tx in all ==> tx in items)
    && |items| <= |all| + stales
  }

  /** The entries are exactly the given transactions, one each. */
  ghost predicate OneEntryEach(items: seq<Tx>, all: set<Tx>) {
    forall tx :: multiset(items)[tx] == if tx in all then 1 else 0
  }

  /** Transactions that leave the pool keep it covered once they are counted as stale. */
  lemma CoversFewer(all: set<Tx>, gone: set<Tx>, items: seq<Tx>, stales: int)
    requires Covers(all, items, stales)
    ensures Covers(all - gone, items, stales + |gone|)
  {
    SubsetSize(all, (all - gone) + gone);
  }

  lemma CoversFewerMap(all: set<Tx>, gone: NonceMap, items: seq<Tx>, stales: int)
    requires Covers(all, items, stales)
    ensures Covers(all - Txs(gone), items, stales + Count(gone))
  {
    ValuesSize(gone);
    CoversFewer(all, Txs(gone), items, stales);
  }

  lemma CoversFewerMaps(all: set<Tx>, olds: NonceMap, drops: NonceMap, items: seq<Tx>, stales: int)
    requires Covers(all, items, stales)
    ensures Covers(all - Txs(olds) - Txs(drops), items, stales + (Count(olds) + Count(drops)))
  {
    CoversFewerMap(all, olds, items, stales);
    CoversFewerMap(all - Txs(olds), drops, items, stales + Count(olds));
  }

  function Live(items: seq<Tx>, all: set<Tx>): seq<Tx> {
    if items == [] then []
    else (if items[0] in all then [items[0]] else []) + Live(items[1..], all)
  }

  lemma {:induction false} LiveMembers(items: seq<Tx>, all: set<Tx>)
    ensures |Live(items, all)| <= |items|
    ensures forall tx :: tx in Live(items, all) <==> tx in items && tx in all
  {
    if items != [] {
      LiveMembers(items[1..], all);
      assert items == [items[0]] + items[1..];
    }
  }

  /** The counter never falls below the number of heap entries whose transaction left the pool;
      in particular it is never negative. */
  lemma StalesNeverUnderstated(all: set<Tx>, items: seq<Tx>, stales: int)
    requires Covers(all, items, stales)
    ensures 0 <= |items| - |Live(items, all)| <= stales
  {
    LiveMembers(items, all);
    ElementsSize(Live(items, all));
    SubsetSize(all, Elements(Live(items, all)));
  }

  /** The slots of a list of entries, an entry at a time: a repeated transaction counts again. */
  function SeqSlots(txs: seq<Tx>): nat {
    if txs == [] then 0 else SeqSlots(txs[..|txs| - 1]) + NumSlots(txs[|txs| - 1])
  }

  /** How many heap entries belong to accounts outside local. */
  function RemoteEntries(items: seq<Tx>, local: set<Address>): nat {
    if items == [] then 0
    else RemoteEntries(items[..|items| - 1], local) + (if items[|items| - 1].sender in local then 0 else 1)
  }

  lemma {:induction false} RemoteEntriesBound(items: seq<Tx>, local: set<Address>)
    ensures RemoteEntries(items, local) <= |items|
    decreases |items|
  {
    if items != [] {
      RemoteEntriesBound(items[..|items| - 1], local);
    }
  }

  /** How many slots Discard sets out to free: with local accounts, no more than there are remote
      entries. */
  function Wanted(items: seq<Tx>, slots: int, local: set<Address>): int {
    if local != {} && RemoteEntries(items, local) < slots then RemoteEntries(items, local) else slots
  }

  /** The entries of pooled remote transactions. */
  function RemoteLive(entries: seq<Tx>, all: set<Tx>, local: set<Address>): seq<Tx> {
    if entries == [] then []
    else (if entries[0] in all && entries[0].sender !in local then [entries[0]] else []) + RemoteLive(entries[1..], all, local)
  }

  /** What can be discarded, in the order the heap gives it up. */
  function Candidates(items: seq<Tx>, all: set<Tx>, local: set<Address>): seq<Tx> {
    RemoteLive(Heap.Order(items, PriceRank), all, local)
  }

  /** The shortest prefix whose entries count for the wanted slots, or all of it. */
  function Enough(entries: seq<Tx>, wanted: int): seq<Tx> {
    if entries == [] || wanted <= 0 then []
    else [entries[0]] + Enough(entries[1..], wanted - NumSlots(entries[0]))
  }

  /** The heap once the stale entries on top are popped. */
  function AfterStale(items: seq<Tx>, all: set<Tx>): seq<Tx>
    decreases |items|
  {
    if items == [] || items[0] in all then items else
    Heap.RestSize(items, PriceRank);
    AfterStale(Heap.Rest(items, PriceRank), all)
  }

  lemma {:induction false} RemoteLiveMembers(entries: seq<Tx>, all: set<Tx>, local: set<Address>)
    ensures forall tx :: tx in RemoteLive(entries, all, local) <==> tx in entries && tx in all && tx.sender !in local
  {
    if entries != [] {
      RemoteLiveMembers(entries[1..], all, local);
      assert entries == [entries[0]] + entries[1..];
    }
  }

  lemma CandidatesMembers(items: seq<Tx>, all: set<Tx>, local: set<Address>)
    ensures forall tx :: tx in Candidates(items, all, local) <==> tx in items && tx in all && tx.sender !in local
  {
    var o := Heap.Order(items, PriceRank);
    Heap.OrderSame(items, PriceRank);
    RemoteLiveMembers(o, all, local);
    forall tx ensures tx in o <==> tx in items {
      assert tx in o <==> tx in multiset(o);
      assert tx in items <==> tx in multiset(items);
    }
  }

  lemma {:induction false} SeqSlotsFirst(tx: Tx, txs: seq<Tx>)
    ensures SeqSlots([tx] + txs) == NumSlots(tx) + SeqSlots(txs)
    decreases |txs|
  {
    var all := [tx] + txs;
    if txs == [] {
      assert all[..0] == [];
    } else {
      var init := txs[..|txs| - 1];
      SeqSlotsFirst(tx, init);
      assert all[..|all| - 1] == [tx] + init;
    }
  }

  lemma PrefixSlots(tx: Tx, rest: seq<Tx>, j: nat)
    requires j <= |rest|
    ensures ([tx] + rest)[..j + 1] == [tx] + rest[..j] && SeqSlots(([tx] + rest)[..j + 1]) == NumSlots(tx) + SeqSlots(rest[..j])
  {
    hide SeqSlots, NumSlots;
    assert ([tx] + rest)[..j + 1] == [tx] + rest[..j];
    SeqSlotsFirst(tx, rest[..j]);
  }

  lemma NoEntries(entries: seq<Tx>)
    ensures entries[..0] == [] && SeqSlots(entries[..0]) == 0
  {
  }

  lemma {:induction false} EnoughIsPrefix(entries: seq<Tx>, wanted: int) returns (k: nat)
    ensures k <= |entries| && Enough(entries, wanted) == entries[..k]
    ensures k == |entries| || SeqSlots(entries[..k]) >= wanted
    ensures k > 0 ==> SeqSlots(entries[..k - 1]) < wanted
    decreases |entries|
  {
    hide SeqSlots, NumSlots;
    if entries == [] || wanted <= 0 {
      k := 0;
      NoEntries(entries);
    } else {
      var tx, rest := entries[0], entries[1..];
      var j := EnoughIsPrefix(rest, wanted - NumSlots(tx));
      k := j + 1;
      assert entries == [tx] + rest;
      PrefixSlots(tx, rest, j);
      if j > 0 {
        PrefixSlots(tx, rest, j - 1);
      } else {
        NoEntries(entries);
      }
    }
  }

  lemma {:induction false} SeqSlotsGrow(txs: seq<Tx>, i: nat)
    requires i <= |txs|
    ensures SeqSlots(txs[..i]) <= SeqSlots(txs)
    decreases |txs|
  {
    if i < |txs| {
      SeqSlotsGrow(txs[..|txs| - 1], i);
      assert txs[..|txs| - 1][..i] == txs[..i];
    } else {
      assert txs[..i] == txs;
    }
  }

  lemma {:induction false} SlotsGrow(a: set<Tx>, b: set<Tx>)
    requires a <= b
    ensures Slots(a) <= Slots(b)
    decreases b - a
  {
    if forall tx :: tx in b ==> tx in a {
      assert a == b;
    } else {
      var tx :| tx in b && tx !in a;
      SlotsAdd(a, tx);
      SlotsGrow(a + {tx}, b);
    }
  }

  lemma {:induction false} SlotsMinus(all: set<Tx>, gone: set<Tx>)
    requires gone <= all
    ensures Slots(all - gone) == Slots(all) - Slots(gone)
    decreases gone
  {
    if gone == {} {
      NoSlots();
      assert all - gone == all;
    } else {
      var tx :| tx in gone;
      SlotsMinus(all, gone - {tx});
      SlotsRemove(gone, tx);
      SlotsRemove(all - (gone - {tx}), tx);
      assert all - (gone - {tx}) - {tx} == all - gone;
    }
  }

  ghost predicate Distinct(txs: seq<Tx>) {
    forall i, j :: 0 <= i < j < |txs| ==> txs[i] != txs[j]
  }

  /** Counting entries never understates the slots freed, and is exact without repetitions. */
  lemma {:induction false} SlotsOfEntries(txs: seq<Tx>)
    ensures Slots(Elements(txs)) <= SeqSlots(txs)
    ensures Distinct(txs) ==> Slots(Elements(txs)) == SeqSlots(txs)
    decreases |txs|
  {
    if txs == [] {
      NoSlots();
      assert Elements(txs) == {};
    } else {
      var init, tx := txs[..|txs| - 1], txs[|txs| - 1];
      SlotsOfEntries(init);
      assert txs == init + [tx];
      assert Elements(txs) == Elements(init) + {tx};
      if tx in init {
        assert Elements(init) + {tx} == Elements(init);
      } else {
        SlotsAdd(Elements(init), tx);
      }
    }
  }

  lemma NoSlots()
    ensures Slots({}) == 0
  {
    var none: map<Tx, nat> := map tx | tx in {} :: NumSlots(tx);
    assert none == map[];
  }

  /** The promise of a discard: the slots asked for are free, or no remote transaction is left. */
  ghost predicate RoomMade(all: set<Tx>, gone: set<Tx>, slots: int, local: set<Address>) {
    Slots(gone) >= slots || forall tx :: tx in all && tx.sender !in local ==> tx in gone
  }

  /** Ahead of every candidate, once the entries count for the wanted slots, the transactions they
      stand for really hold the slots asked for. */
  ghost predicate RoomFor(candidates: seq<Tx>, wanted: int, slots: int) {
    forall i :: 0 <= i < |candidates| && candidates[i] !in candidates[..i] && SeqSlots(candidates[..i]) >= wanted ==>
                  Slots(Elements(candidates[..i])) >= slots
  }

  /** Dropping enough of the candidates makes room exactly when there is room for it. */
  lemma RoomIff(candidates: seq<Tx>, all: set<Tx>, local: set<Address>, wanted: int, slots: int)
    requires forall tx :: tx in candidates <==> tx in all && tx.sender !in local
    ensures RoomMade(all, Elements(Enough(candidates, wanted)), slots, local) <==> RoomFor(candidates, wanted, slots)
  {
    hide Slots, SeqSlots, Enough;
    var k := EnoughIsPrefix(candidates, wanted);
    var drop := candidates[..k];
    if RoomMade(all, Elements(drop), slots, local) {
      forall i | 0 <= i < |candidates| && candidates[i] !in candidates[..i] && SeqSlots(candidates[..i]) >= wanted
        ensures Slots(Elements(candidates[..i])) >= slots
      {
        PastEnough(candidates, k, i, wanted);
        assert candidates[i] in candidates && candidates[..i][..k] == drop;
        SlotsGrow(Elements(drop), Elements(candidates[..i]));
      }
    }
    if RoomFor(candidates, wanted, slots) {
      forall tx | tx in all && tx.sender !in local && tx !in drop ensures Slots(Elements(drop)) >= slots {
        var i := FirstNew(candidates, k, tx);
        assert candidates[..i][..k] == drop;
        SeqSlotsGrow(candidates[..i], k);
      }
    }
  }

  lemma PastEnough(candidates: seq<Tx>, k: nat, i: nat, wanted: int)
    requires k <= |candidates| && (k > 0 ==> SeqSlots(candidates[..k - 1]) < wanted)
    requires i < |candidates| && SeqSlots(candidates[..i]) >= wanted
    ensures k <= i
  {
    hide SeqSlots;
    if i < k {
      assert candidates[..k - 1][..i] == candidates[..i];
      SeqSlotsGrow(candidates[..k - 1], i);
    }
  }

  lemma IndexBeyond(candidates: seq<Tx>, k: nat, tx: Tx) returns (i: nat)
    requires k <= |candidates| && tx in candidates && tx !in candidates[..k]
    ensures k <= i < |candidates| && candidates[i] == tx
  {
    var rest := candidates[k..];
    assert candidates == candidates[..k] + rest;
    var j :| 0 <= j < |rest| && rest[j] == tx;
    i := k + j;
  }

  /** The first candidate from k on that is not among those before k. */
  lemma FirstNew(candidates: seq<Tx>, k: nat, tx: Tx) returns (i: nat)
    requires k <= |candidates| && tx in candidates && tx !in candidates[..k]
    ensures k <= i < |candidates| && candidates[i] !in candidates[..i]
    ensures Elements(candidates[..i]) == Elements(candidates[..k])
  {
    i := k;
    var last := IndexBeyond(candidates, k, tx);
    while candidates[i] in candidates[..k]
      invariant k <= i <= last && Elements(candidates[..i]) == Elements(candidates[..k])
      decreases last - i
    {
      assert candidates[..i + 1] == candidates[..i] + [candidates[i]];
      i := i + 1;
    }
    assert candidates[i] !in Elements(candidates[..i]);
  }

  /** Midway through unpacking the heap: what was popped is stale, saved or dropped. */
  ghost predicate Unpacking(all: set<Tx>, items: seq<Tx>, save: seq<Tx>, drop: seq<Tx>, stales: int) {
    && Heap.IsHeap(items, PriceRank)
    && (forall tx :: tx in all ==> tx in items || tx in save || tx in drop)
    && (forall tx :: tx in save || tx in drop ==> tx in all)
    && |items| + |save| + |drop| <= |all| + stales
  }

  /** What remains pooled once the dropped transactions are gone is again covered. */
  lemma Repacked(all: set<Tx>, items: seq<Tx>, save: seq<Tx>, drop: seq<Tx>, stales: int, packed: seq<Tx>)
    requires Unpacking(all, items, save, drop, stales)
    requires Heap.IsHeap(packed, PriceRank) && multiset(packed) == multiset(items) + multiset(save)
    ensures Covers(all - Elements(drop), packed, stales)
  {
    MinusElements(all, drop);
    assert |multiset(packed)| == |multiset(items)| + |multiset(save)|;
    forall tx | tx in all - Elements(drop) ensures tx in packed {
      assert tx in multiset(items) || tx in multiset(save);
      assert tx in multiset(packed);
    }
  }

  lemma PopMembers(items: seq<Tx>, tx: Tx, rest: seq<Tx>)
    requires multiset(items) == multiset(rest) + multiset{tx}
    ensures |items| == |rest| + 1 && tx in items
    ensures forall t :: t in items <==> t == tx || t in rest
  {
    assert |multiset(items)| == |multiset(rest)| + 1;
    forall t ensures t in items <==> t == tx || t in rest {
      assert t in items <==> t in multiset(items);
      assert t in rest <==> t in multiset(rest);
    }
  }

  lemma CandidatesUnfold(items: seq<Tx>, all: set<Tx>, local: set<Address>)
    requires items != []
    ensures var rest := Candidates(Heap.Rest(items, PriceRank), all, local);
            Candidates(items, all, local) == if items[0] in all && items[0].sender !in local then [items[0]] + rest else rest
  {
    var o := Heap.Order(items, PriceRank);
    assert o[1..] == Heap.Order(Heap.Rest(items, PriceRank), PriceRank);
  }

  /** One entry is popped: a stale one is forgotten, a local one saved, a remote one dropped; what is
      still to be dropped is enough of the candidates that remain. */
  lemma DiscardStep(all: set<Tx>, items: seq<Tx>, save: seq<Tx>, drop: seq<Tx>, stales: int, local: set<Address>, left: int,
                    tx: Tx, rest: seq<Tx>, goal: seq<Tx>)
    requires Unpacking(all, items, save, drop, stales) && items != [] && left > 0 && tx == items[0]
    requires Heap.IsHeap(rest, PriceRank) && rest == Heap.Rest(items, PriceRank)
    requires Dropping(drop, Candidates(items, all, local), left, goal)
    ensures var more := Candidates(rest, all, local);
            if tx !in all then Unpacking(all, rest, save, drop, stales - 1) && Dropping(drop, more, left, goal)
            else if tx.sender in local then Unpacking(all, rest, save + [tx], drop, stales) && Dropping(drop, more, left, goal)
            else Unpacking(all, rest, save, drop + [tx], stales) && Dropping(drop + [tx], more, left - NumSlots(tx), goal)
    ensures |rest| == |items| - 1
  {
    hide NumSlots, Heap.IsHeap, Candidates, Dropping;
    Heap.RestSize(items, PriceRank);
    PopMembers(items, tx, rest);
    CandidatesUnfold(items, all, local);
    if tx in all && tx.sender !in local {
      DropOne(drop, tx, Candidates(rest, all, local), left, goal);
    }
  }

  /** What is dropped already and enough of the remaining candidates make up the goal. */
  ghost predicate Dropping(drop: seq<Tx>, candidates: seq<Tx>, left: int, goal: seq<Tx>) {
    drop + Enough(candidates, left) == goal
  }

  lemma DropOne(drop: seq<Tx>, tx: Tx, more: seq<Tx>, left: int, goal: seq<Tx>)
    requires left > 0 && Dropping(drop, [tx] + more, left, goal)
    ensures Dropping(drop + [tx], more, left - NumSlots(tx), goal)
  {
    hide NumSlots;
    assert ([tx] + more)[1..] == more;
    assert drop + ([tx] + Enough(more, left - NumSlots(tx))) == (drop + [tx]) + Enough(more, left - NumSlots(tx));
  }

  lemma DropStart(candidates: seq<Tx>, wanted: int)
    ensures Dropping([], candidates, wanted, Enough(candidates, wanted))
  {
  }

  lemma DropDone(drop: seq<Tx>, candidates: seq<Tx>, left: int, goal: seq<Tx>)
    requires Dropping(drop, candidates, left, goal) && (candidates == [] || left <= 0)
    ensures drop == goal
  {
  }

  method PushAll(items: seq<Tx>, save: seq<Tx>) returns (packed: seq<Tx>)
    requires Heap.IsHeap(items, PriceRank)
    ensures Heap.IsHeap(packed, PriceRank) && multiset(packed) == multiset(items) + multiset(save) && |packed| == |items| + |save|
  {
    packed := items;
    for i := 0 to |save|
      invariant Heap.IsHeap(packed, PriceRank) && multiset(packed) == multiset(items) + multiset(save[..i])
    {
      assert save[..i + 1] == save[..i] + [save[i]];
      packed := Heap.Push(packed, save[i], PriceRank);
    }
    assert save[..|save|] == save;
    assert |multiset(packed)| == |multiset(items)| + |multiset(save)|;
  }

  class TxPricedList {
    const all: TxLookup
    var items: seq<Tx>
    var stales: int

    ghost predicate Valid()
      reads this, all
    {
      Covers(all.all, items, stales)
    }

    constructor (all: TxLookup)
      requires all.all == {}
      ensures Valid() && this.all == all && items == [] && stales == 0
    {
      this.all := all;
      items, stales := [], 0;
    }

    method Put(tx: Tx)
      requires Covers(all.all - {tx}, items, stales) && tx in all.all
      modifies this
      ensures Valid() && multiset(items) == multiset(old(items)) + multiset{tx} && stales == old(stales)
    {
      ghost var before := items;
      items := Heap.Push(items, tx, PriceRank);
      PopMembers(items, tx, before);
      assert all.all == (all.all - {tx}) + {tx};
    }

    /** Counts transactions that just left the pool; rebuilds the heap when too many are stale. */
    method Removed(count: nat)
      requires Covers(all.all, items, stales + count)
      modifies this
      ensures Valid()
      ensures if old(stales) + count <= |old(items)| / 4 then items == old(items) && stales == old(stales) + count
              else stales == 0 && OneEntryEach(items, all.all)
    {
      stales := stales + count;
      if stales <= |items| / 4 {
        return;
      }
      stales, items := 0, [];
      var todo := all.all;
      while todo != {}
        invariant todo <= all.all && all.all == old(all.all) && stales == 0
        invariant |items| + |todo| == |all.all| && OneEntryEach(items, all.all - todo)
        decreases |todo|
      {
        var tx :| tx in todo;
        todo := todo - {tx};
        items := items + [tx];
      }
      ghost var flat := items;
      items := Heap.Init(items, PriceRank);
      assert |multiset(items)| == |multiset(flat)|;
      forall tx | tx in all.all ensures tx in items {
        assert tx in multiset(items);
      }
    }

    /** Drops exactly the remote pooled transactions cheaper than the threshold. */
    method Cap(threshold: nat, local: set<Address>) returns (drop: seq<Tx>)
      requires Valid()
      modifies this
      ensures forall tx :: tx in drop <==> tx in all.all && tx.sender !in local && tx.price < threshold
      ensures Covers(all.all - Elements(drop), items, stales) && |items| + |drop| - stales == |old(items)| - old(stales)
    {
      var save: seq<Tx> := [];
      drop := [];
      while items != []
        invariant all.all == old(all.all) && Unpacking(all.all, items, save, drop, stales)
        invariant |items| + |save| + |drop| - stales == |old(items)| - old(stales)
        invariant forall tx :: tx in drop ==> tx.sender !in local && tx.price < threshold
        invariant forall tx :: tx in save ==> tx.sender in local
        decreases |items|
      {
        var tx, rest := Heap.Pop(items, PriceRank);
        PopMembers(items, tx, rest);
        ghost var before := items;
        items := rest;
        if tx !in all.all {
          stales := stales - 1;
          continue;
        }
        if tx.price >= threshold {
          save := save + [tx];
          assert forall t :: t in before ==> NoDearer(tx, t);
          break;
        }
        if tx.sender in local {
          save := save + [tx];
        } else {
          drop := drop + [tx];
        }
      }
      ghost var unpacked := items;
      items := PushAll(items, save);
      Repacked(all.all, unpacked, save, drop, stales, items);
    }

    /** Local transactions are never underpriced; a remote one is exactly when the pool is not
        empty and no pooled transaction is cheaper. */
    method Underpriced(tx: Tx, local: set<Address>) returns (cheap: bool)
      requires Valid()
      modifies this
      ensures Valid() && items == if tx.sender in local then old(items) else AfterStale(old(items), all.all)
      ensures cheap <==> tx.sender !in local && all.all != {} && forall t :: t in all.all ==> tx.price <= t.price
      ensures |items| - stales == |old(items)| - old(stales)
    {
      if tx.sender in local {
        return false;
      }
      while items != [] && items[0] !in all.all
        invariant all.all == old(all.all) && Valid() && AfterStale(items, all.all) == AfterStale(old(items), all.all)
        invariant |items| - stales == |old(items)| - old(stales)
        decreases |items|
      {
        var head, rest := Heap.Pop(items, PriceRank);
        PopMembers(items, head, rest);
        items, stales := rest, stales - 1;
      }
      if items == [] {
        assert all.all == {};
        return false;
      }
      Heap.RootIsLeastAll(items, PriceRank);
      assert forall t :: t in all.all ==> NoDearer(items[0], t);
      cheap := items[0].price >= tx.price;
    }

    method CountRemote(slots: int, local: set<Address>) returns (wanted: int)
      ensures wanted == Wanted(items, slots, local)
    {
      wanted := slots;
      if local != {} {
        var discardable := 0;
        for i := 0 to |items|
          invariant discardable == RemoteEntries(items[..i], local)
          invariant discardable < slots || i == 0
        {
          assert items[..i + 1][..i] == items[..i];
          if items[i].sender !in local {
            discardable := discardable + 1;
          }
          if discardable >= slots {
            RemoteEntriesGrow(items, i + 1, local);
            return;
          }
        }
        assert items[..|items|] == items;
        if slots > discardable {
          wanted := discardable;
        }
      }
    }

    /** Pops one entry: a stale one is forgotten, a local one saved, a remote one dropped. */
    method DiscardOne(local: set<Address>, save: seq<Tx>, drop: seq<Tx>, left: int, ghost goal: seq<Tx>)
      returns (save': seq<Tx>, drop': seq<Tx>, left': int)
      requires items != [] && left > 0 && Unpacking(all.all, items, save, drop, stales)
      requires Dropping(drop, Candidates(items, all.all, local), left, goal)
      modifies this
      ensures Unpacking(all.all, items, save', drop', stales) && |items| < |old(items)|
      ensures |items| + |save'| + |drop'| - stales == |old(items)| + |save| + |drop| - old(stales)
      ensures Dropping(drop', Candidates(items, all.all, local), left', goal)
    {
      hide Heap.IsHeap, Heap.Rest, NumSlots, PriceRank, Candidates, Dropping, Unpacking;
      UnpackHeap(all.all, items, save, drop, stales);
      var tx, rest := Heap.Pop(items, PriceRank);
      DiscardStep(all.all, items, save, drop, stales, local, left, tx, rest, goal);
      items := rest;
      save', drop', left' := save, drop, left;
      if tx !in all.all {
        stales := stales - 1;
        return;
      }
      if tx.sender in local {
        save' := save + [tx];
      } else {
        drop' := drop + [tx];
        left' := left - NumSlots(tx);
      }
    }

    /** Drops the cheapest remote transactions until their entries count for the wanted slots. That
        makes room exactly when RoomFor says so. Allocating the saved list fails when more slots are
        wanted than the heap has entries. */
    method Discard(slots: int, local: set<Address>) returns (r: Option<seq<Tx>>)
      requires Valid()
      modifies this
      ensures var wanted := Wanted(old(items), slots, local);
              var candidates := Candidates(old(items), all.all, local);
              && (r == None <==> wanted < 0 || wanted > |old(items)|)
              && (r == None ==> items == old(items) && stales == old(stales))
              && (r.Some? ==>
                    && r.value == Enough(candidates, wanted) && Discarded(all.all, r.value, wanted, local)
                    && (RoomMade(all.all, Elements(r.value), slots, local) <==> RoomFor(candidates, wanted, slots))
                    && Covers(all.all - Elements(r.value), items, stales)
                    && |items| + |r.value| - stales == |old(items)| - old(stales))
    {
      hide Heap.IsHeap, NumSlots, PriceRank, Candidates, Discarded, RoomMade, RoomFor, Enough, Dropping, Unpacking, Covers;
      var wanted := CountRemote(slots, local);
      EnoughDiscards(items, all.all, stales, local, wanted, slots);
      if wanted == 0 {
        assert all.all - Elements([]) == all.all;
        NothingWanted(Candidates(items, all.all, local));
        return Some([]);
      }
      if wanted < 0 || |items| < wanted {
        return None;
      }
      var save: seq<Tx>, drop: seq<Tx> := [], [];
      var left := wanted;
      ghost var goal := Enough(Candidates(items, all.all, local), wanted);
      DropStart(Candidates(items, all.all, local), wanted);
      UnpackStart(all.all, items, stales);
      while items != [] && left > 0
        invariant all.all == old(all.all) && Unpacking(all.all, items, save, drop, stales)
        invariant Dropping(drop, Candidates(items, all.all, local), left, goal)
        invariant |items| + |save| + |drop| - stales == |old(items)| - old(stales)
        decreases |items|
      {
        save, drop, left := DiscardOne(local, save, drop, left, goal);
      }
      NoCandidates(all.all, local);
      DropDone(drop, Candidates(items, all.all, local), left, goal);
      UnpackHeap(all.all, items, save, drop, stales);
      ghost var unpacked := items;
      items := PushAll(items, save);
      Repacked(all.all, unpacked, save, drop, stales, items);
      r := Some(drop);
    }
  }

  lemma NothingWanted(candidates: seq<Tx>)
    ensures Enough(candidates, 0) == []
  {
  }

  lemma UnpackStart(all: set<Tx>, items: seq<Tx>, stales: int)
    requires Covers(all, items, stales)
    ensures Unpacking(all, items, [], [], stales)
  {
  }

  lemma UnpackHeap(all: set<Tx>, items: seq<Tx>, save: seq<Tx>, drop: seq<Tx>, stales: int)
    requires Unpacking(all, items, save, drop, stales)
    ensures Heap.IsHeap(items, PriceRank)
  {
  }

  lemma NoCandidates(all: set<Tx>, local: set<Address>)
    ensures Candidates([], all, local) == []
  {
  }

  lemma {:induction false} RemoteLiveSorted(entries: seq<Tx>, all: set<Tx>, local: set<Address>, i: nat, j: nat)
    requires forall a, b :: 0 <= a < b < |entries| ==> NoDearer(entries[a], entries[b])
    requires i < j < |RemoteLive(entries, all, local)|
    ensures NoDearer(RemoteLive(entries, all, local)[i], RemoteLive(entries, all, local)[j])
    decreases |entries|
  {
    hide NoDearer;
    var rest := entries[1..];
    if entries[0] in all && entries[0].sender !in local {
      if i > 0 {
        RemoteLiveSorted(rest, all, local, i - 1, j - 1);
      } else {
        RemoteLiveMembers(rest, all, local);
        var tx := RemoteLive(rest, all, local)[j - 1];
        assert tx in rest;
        var k :| 0 <= k < |rest| && rest[k] == tx;
        assert entries[k + 1] == tx;
      }
    } else {
      RemoteLiveSorted(rest, all, local, i, j);
    }
  }

  lemma CandidatesSorted(items: seq<Tx>, all: set<Tx>, local: set<Address>, i: nat, j: nat)
    requires Heap.IsHeap(items, PriceRank) && i < j < |Candidates(items, all, local)|
    ensures NoDearer(Candidates(items, all, local)[i], Candidates(items, all, local)[j])
  {
    var o := Heap.Order(items, PriceRank);
    forall a, b | 0 <= a < b < |o| ensures NoDearer(o[a], o[b]) {
      Heap.OrderSorted(items, PriceRank, a, b);
    }
    RemoteLiveSorted(o, all, local, i, j);
  }

  lemma EnoughDiscards(items: seq<Tx>, all: set<Tx>, stales: int, local: set<Address>, wanted: int, slots: int)
    requires Covers(all, items, stales)
    ensures var candidates := Candidates(items, all, local);
            && Discarded(all, Enough(candidates, wanted), wanted, local)
            && (RoomMade(all, Elements(Enough(candidates, wanted)), slots, local) <==> RoomFor(candidates, wanted, slots))
  {
    hide Candidates, Enough, NoDearer, SeqSlots, RoomMade, RoomFor, Heap.IsHeap;
    var candidates := Candidates(items, all, local);
    CandidatesMembers(items, all, local);
    RoomIff(candidates, all, local, wanted, slots);
    var k := EnoughIsPrefix(candidates, wanted);
    var drop := candidates[..k];
    assert k == |candidates| ==> drop == candidates;
    assert k > 0 ==> drop[..|drop| - 1] == candidates[..k - 1];
    forall d, t | d in drop && t in all && t !in drop && t.sender !in local ensures NoDearer(d, t) {
      var i :| 0 <= i < k && candidates[i] == d;
      var j := IndexBeyond(candidates, k, t);
      CandidatesSorted(items, all, local, i, j);
    }
  }

  lemma {:induction false} RemoteEntriesGrow(items: seq<Tx>, i: nat, local: set<Address>)
    requires i <= |items|
    ensures RemoteEntries(items[..i], local) <= RemoteEntries(items, local)
    decreases |items|
  {
    if i < |items| {
      var init := items[..|items| - 1];
      RemoteEntriesGrow(init, i, local);
      assert init[..i] == items[..i];
    } else {
      assert items[..i] == items;
    }
  }

  /** What a discard drops: pooled remote transactions, none dearer in heap order than a remote
      one that stays; entries that count for the wanted slots, or all there are; and never more
      than needed, so that without the last entry too few slots would be counted. */
  ghost predicate Discarded(all: set<Tx>, drop: seq<Tx>, wanted: int, local: set<Address>) {
    && (forall d :: d in drop ==> d in all && d.sender !in local)
    && (forall d, t :: d in drop && t in all && t !in drop && t.sender !in local ==> NoDearer(d, t))
    && (SeqSlots(drop) >= wanted || forall t :: t in all && t.sender !in local ==> t in drop)
    && (drop != [] ==> SeqSlots(drop[..|drop| - 1]) < wanted)
  }
}
