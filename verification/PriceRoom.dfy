/** When discarding makes room (core/tx_list.go, Discard): entries are counted, transactions are
    dropped, and the two differ where a transaction was removed and added again while its old entry
    was still in the heap. */
module PriceRoom {
  import opened Collections
  import opened TxTypes
  import opened Priced
  import Heap

  lemma {:induction false} LiveCounts(items: seq<Tx>, all: set<Tx>, tx: Tx)
    requires tx in all
    ensures multiset(Live(items, all))[tx] == multiset(items)[tx]
  {
    if items != [] {
      LiveCounts(items[1..], all, tx);
      assert items == [items[0]] + items[1..];
    }
  }

  /** As many different elements as elements: none occurs twice. */
  lemma {:induction false} NoneTwice(s: seq<Tx>, tx: Tx)
    requires |Elements(s)| == |s|
    ensures multiset(s)[tx] <= 1
    decreases |s|
  {
    if s != [] {
      var init, last := s[..|s| - 1], s[|s| - 1];
      assert s == init + [last];
      assert Elements(s) == Elements(init) + {last};
      ElementsSize(init);
      assert last !in Elements(init) && last !in multiset(init);
      NoneTwice(init, tx);
    }
  }

  lemma {:induction false} FewerRemote(entries: seq<Tx>, all: set<Tx>, local: set<Address>, tx: Tx)
    ensures multiset(RemoteLive(entries, all, local))[tx] <= multiset(entries)[tx]
  {
    if entries != [] {
      FewerRemote(entries[1..], all, local, tx);
      assert entries == [entries[0]] + entries[1..];
    }
  }

  lemma DistinctByCount(s: seq<Tx>)
    requires forall tx :: multiset(s)[tx] <= 1
    ensures Distinct(s)
  {
    forall i, j | 0 <= i < j < |s| ensures s[i] != s[j] {
      var a, b := s[..j], s[j..];
      assert s == a + b;
      assert a[i] in multiset(a) && b[0] in multiset(b);
      assert multiset(s)[s[i]] == multiset(a)[s[i]] + multiset(b)[s[i]];
    }
  }

  /** A heap with as many live entries as there are pooled transactions repeats no candidate. */
  lemma NoRepeats(items: seq<Tx>, all: set<Tx>, stales: int, local: set<Address>)
    requires Covers(all, items, stales) && |Live(items, all)| == |all|
    ensures Distinct(Candidates(items, all, local))
  {
    hide Heap.IsHeap, PriceRank;
    var live := Live(items, all);
    LiveMembers(items, all);
    assert Elements(live) == all;
    var candidates, order := Candidates(items, all, local), Heap.Order(items, PriceRank);
    Heap.OrderSame(items, PriceRank);
    RemoteLiveMembers(order, all, local);
    forall tx ensures multiset(candidates)[tx] <= 1 {
      FewerRemote(order, all, local, tx);
      if tx in all {
        NoneTwice(live, tx);
        LiveCounts(items, all, tx);
      } else {
        assert tx !in candidates;
      }
    }
    DistinctByCount(candidates);
  }

  lemma DistinctPrefix(s: seq<Tx>, i: nat)
    requires Distinct(s) && i <= |s|
    ensures Distinct(s[..i])
  {
  }

  /** Without repeated entries, and without a cut in what is wanted, room is made. */
  lemma RoomWithoutRepeats(items: seq<Tx>, all: set<Tx>, stales: int, local: set<Address>, slots: int)
    requires Covers(all, items, stales) && |Live(items, all)| == |all| && Wanted(items, slots, local) == slots
    ensures RoomFor(Candidates(items, all, local), slots, slots)
  {
    hide Covers, Wanted, Distinct, Candidates, Slots, SeqSlots;
    NoRepeats(items, all, stales, local);
    var candidates := Candidates(items, all, local);
    forall i | 0 <= i < |candidates| && SeqSlots(candidates[..i]) >= slots ensures Slots(Elements(candidates[..i])) >= slots {
      DistinctPrefix(candidates, i);
      SlotsOfEntries(candidates[..i]);
    }
  }

  /** The entries ahead of every new candidate stand for the slots they count for, or for at least
      limit of them. */
  ghost predicate Honest(candidates: seq<Tx>, limit: int) {
    forall i :: 0 <= i < |candidates| && candidates[i] !in candidates[..i] ==>
                  Slots(Elements(candidates[..i])) == SeqSlots(candidates[..i]) || Slots(Elements(candidates[..i])) >= limit
  }

  /** Room is made for every request up to a limit if and only if no candidate is repeated ahead of
      a new one, short of the limit. */
  lemma RoomForEveryRequest(candidates: seq<Tx>, limit: int)
    ensures (forall slots :: slots <= limit ==> RoomFor(candidates, slots, slots)) <==> Honest(candidates, limit)
  {
    hide Slots, SeqSlots;
    if forall slots :: slots <= limit ==> RoomFor(candidates, slots, slots) {
      forall i | 0 <= i < |candidates| && candidates[i] !in candidates[..i]
        ensures Slots(Elements(candidates[..i])) == SeqSlots(candidates[..i]) || Slots(Elements(candidates[..i])) >= limit
      {
        var freed := Slots(Elements(candidates[..i]));
        SlotsOfEntries(candidates[..i]);
        if freed < limit {
          assert RoomFor(candidates, freed + 1, freed + 1);
        }
      }
    }
    if Honest(candidates, limit) {
      forall slots | slots <= limit ensures RoomFor(candidates, slots, slots) {}
    }
  }

  /** With local accounts, a request beyond the number of remote entries is cut to that number. Room
      is made for all such requests if and only if the entries ahead of every new candidate count for
      fewer slots than that, so that all candidates go. */
  lemma RoomForAnyExcess(candidates: seq<Tx>, entries: nat)
    ensures (forall slots :: slots > entries ==> RoomFor(candidates, entries, slots)) <==>
            (forall i :: 0 <= i < |candidates| && candidates[i] !in candidates[..i] ==> SeqSlots(candidates[..i]) < entries)
  {
    hide Slots, SeqSlots;
    if forall slots :: slots > entries ==> RoomFor(candidates, entries, slots) {
      forall i | 0 <= i < |candidates| && candidates[i] !in candidates[..i] ensures SeqSlots(candidates[..i]) < entries {
        var freed := Slots(Elements(candidates[..i]));
        assert RoomFor(candidates, entries, if freed < entries then entries + 1 else freed + 1);
      }
    }
    if forall i :: 0 <= i < |candidates| && candidates[i] !in candidates[..i] ==> SeqSlots(candidates[..i]) < entries {
      forall slots | slots > entries ensures RoomFor(candidates, entries, slots) {}
    }
  }

  function Example(id: nat, price: nat, size: Positive): Tx {
    Tx(id, id, 0, price, 21000, 0, size, false, [])
  }

  lemma ExampleSlots()
    ensures forall id, price :: NumSlots(Example(id, price, KIB)) == 1
    ensures forall id, price :: NumSlots(Example(id, price, 128 * KIB)) == 4
  {
  }

  /** The cheapest entries come first. */
  lemma CheapestFirst(order: seq<Tx>, tx: Tx)
    requires forall i, j :: 0 <= i < j < |order| ==> NoDearer(order[i], order[j])
    requires tx in multiset(order) && forall t :: t in order && t != tx ==> !NoDearer(t, tx)
    ensures order != [] && order[0] == tx
  {
    var k :| 0 <= k < |order| && order[k] == tx;
    assert k > 0 ==> NoDearer(order[0], order[k]);
  }

  lemma Ordered(items: seq<Tx>, i: nat, j: nat)
    requires Heap.IsHeap(items, PriceRank) && i < j < |Heap.Order(items, PriceRank)|
    ensures NoDearer(Heap.Order(items, PriceRank)[i], Heap.Order(items, PriceRank)[j])
  {
    Heap.OrderSorted(items, PriceRank, i, j);
  }

  /** With the cheapest transaction entered twice, two slots are counted on it. */
  lemma CountedTwice(items: seq<Tx>, all: set<Tx>, tx: Tx)
    requires Heap.IsHeap(items, PriceRank) && multiset(items)[tx] >= 2 && tx in all && NumSlots(tx) == 1
    requires forall t :: t in items && t != tx ==> !NoDearer(t, tx)
    ensures Enough(Candidates(items, all, {}), 2) == [tx, tx]
  {
    hide Heap.IsHeap, Heap.Order, NoDearer, NumSlots;
    var order := Heap.Order(items, PriceRank);
    Heap.OrderSame(items, PriceRank);
    forall i, j | 0 <= i < j < |order| ensures NoDearer(order[i], order[j]) { Ordered(items, i, j); }
    forall t | t in order && t != tx ensures !NoDearer(t, tx) {
      assert t in multiset(order);
      assert t in multiset(items);
    }
    CheapestFirst(order, tx);
    var rest := order[1..];
    assert order == [tx] + rest;
    CheapestFirst(rest, tx);
    EnoughTwo(rest[1..], all, tx);
    assert order == [tx] + ([tx] + rest[1..]);
  }

  lemma EnoughTwo(rest: seq<Tx>, all: set<Tx>, tx: Tx)
    requires tx in all && NumSlots(tx) == 1
    ensures Enough(RemoteLive([tx] + ([tx] + rest), all, {}), 2) == [tx, tx]
  {
    hide NumSlots;
    var two := [tx] + rest;
    assert ([tx] + two)[1..] == two && two[1..] == rest;
    var more := RemoteLive(rest, all, {});
    assert RemoteLive([tx] + two, all, {}) == [tx] + ([tx] + more);
    var one := [tx] + more;
    assert ([tx] + one)[1..] == one && one[1..] == more;
    assert Enough(one, 1) == [tx] + Enough(more, 0);
    assert Enough([tx] + one, 2) == [tx] + Enough(one, 1);
  }

  /** In a heap of four or more entries, one transaction leaves and enters again: its old entry stays. */
  method Reenter(l: TxPricedList, t: Tx)
    requires l.Valid() && l.all.Valid() && OneEntryEach(l.items, l.all.all) && l.stales == 0 && |l.items| >= 4 && t in l.all.all
    modifies l, l.all
    ensures l.Valid() && l.all.all == old(l.all.all)
    ensures |l.items| == |old(l.items)| + 1 && multiset(l.items)[t] == 2 && forall x :: x in l.items ==> x in l.all.all
  {
    hide Covers, Slots;
    forall x | x in l.items ensures x in l.all.all { assert x in multiset(l.items); }
    CoversFewer(l.all.all, {t}, l.items, l.stales);
    l.all.Remove(t);
    l.Removed(1);
    Enter(l.all, l, t);
    assert old(l.all.all) - {t} + {t} == old(l.all.all);
  }

  /** A heap and a lookup of the given transactions. */
  method Filled(txs: seq<Tx>) returns (l: TxPricedList)
    requires Distinct(txs)
    ensures fresh(l) && fresh(l.all) && l.Valid() && l.all.Valid() && l.all.all == Elements(txs)
    ensures |l.items| == |txs| && l.stales == 0 && OneEntryEach(l.items, l.all.all)
  {
    hide Covers, Slots;
    var lookup := new TxLookup();
    l := new TxPricedList(lookup);
    for i := 0 to |txs|
      invariant l.all == lookup && fresh(l) && fresh(lookup) && l.Valid() && lookup.Valid() && lookup.all == Elements(txs[..i])
      invariant |l.items| == i && l.stales == 0 && OneEntryEach(l.items, lookup.all)
    {
      assert txs[..i + 1] == txs[..i] + [txs[i]];
      Enter(lookup, l, txs[i]);
    }
    assert txs[..|txs|] == txs;
  }

  /** Whenever the cheapest transaction has two entries and one slot, freeing two slots drops it twice
      and frees one, and the dearer transactions stay. */
  method DiscardTwice(l: TxPricedList, t: Tx) returns (r: Option<seq<Tx>>)
    requires l.Valid() && t in l.all.all && |l.all.all| > 1 && NumSlots(t) == 1 && |l.items| >= 2
    requires multiset(l.items)[t] >= 2 && forall x :: x in l.items && x != t ==> !NoDearer(x, t)
    modifies l
    ensures r == Some([t, t]) && !RoomMade(l.all.all, Elements(r.value), 2, {})
  {
    hide Heap.IsHeap, Candidates, Enough, RoomFor, Discarded, SeqSlots, Slots, NoDearer, NumSlots;
    CountedTwice(l.items, l.all.all, t);
    r := l.Discard(2, {});
    OneSlot(t);
    assert Elements([t, t]) == {t};
    SomeoneElse(l.all.all, t);
  }

  /** A run that gets there: four transactions enter, and the cheapest leaves and enters again. */
  method RepeatExample() returns (l: TxPricedList, r: Option<seq<Tx>>)
    ensures |l.all.all| == 4 && r.Some? && !RoomMade(l.all.all, Elements(r.value), 2, {})
  {
    hide Covers, RoomMade, NoDearer, NumSlots;
    var t, u, v, w := Example(1, 1, KIB), Example(2, 2, KIB), Example(3, 3, KIB), Example(4, 4, KIB);
    ExampleSlots();
    l := Filled([t, u, v, w]);
    assert l.all.all == {t, u, v, w};
    Reenter(l, t);
    Dearer(l.items, l.all.all, t);
    r := DiscardTwice(l, t);
  }

  lemma SomeoneElse(all: set<Tx>, t: Tx)
    requires |all| > 1
    ensures exists x :: x in all && x !in {t}
  {
    SubsetSize({t}, {t});
    if forall x :: x in all ==> x in {t} {
      SubsetSize(all, {t});
    }
  }

  lemma Dearer(items: seq<Tx>, all: set<Tx>, tx: Tx)
    requires (forall t :: t in items ==> t in all) && forall t :: t in all && t != tx ==> t.price > tx.price
    ensures forall t :: t in items && t != tx ==> !NoDearer(t, tx)
  {
  }

  lemma OneSlot(tx: Tx)
    ensures Slots({tx}) == NumSlots(tx)
  {
    NoSlots();
    SlotsAdd({}, tx);
    assert {} + {tx} == {tx};
  }

  /** Adds one transaction to the lookup and the heap. */
  method Enter(lookup: TxLookup, l: TxPricedList, tx: Tx)
    requires l.all == lookup && lookup.Valid() && l.Valid() && tx !in lookup.all
    modifies lookup, l
    ensures lookup.Valid() && l.Valid() && lookup.all == old(lookup.all) + {tx} && l.stales == old(l.stales)
    ensures |l.items| == |old(l.items)| + 1
    ensures forall t :: multiset(l.items)[t] == multiset(old(l.items))[t] + if t == tx then 1 else 0
    ensures forall t :: t in l.items <==> t == tx || t in old(l.items)
  {
    lookup.Add(tx);
    assert lookup.all - {tx} == old(lookup.all);
    l.Put(tx);
    PopMembers(l.items, tx, old(l.items));
  }

  /** With local accounts the request is cut to the number of remote entries, but still counted in
      slots: five slots asked for become two, a transaction of four is dropped, and a remote one stays. */
  method CutExample() returns (l: TxPricedList, r: Option<seq<Tx>>)
    ensures |l.all.all| == 2 && r.Some? && |r.value| == 1 && !RoomMade(l.all.all, Elements(r.value), 5, {0})
  {
    hide Heap.IsHeap, Candidates, Enough, RoomFor, Discarded, SeqSlots, Slots, NoDearer, NumSlots, RemoteEntries;
    var big, small := Example(1, 1, 128 * KIB), Example(2, 2, KIB);
    l := Filled([big, small]);
    assert l.all.all == {big, small};
    CutFacts(l.items, l.all.all, big, small);
    r := l.Discard(5, {0});
    OneSlot(big);
    ExampleSlots();
    assert Elements([big]) == {big};
  }

  lemma {:induction false} AllRemote(items: seq<Tx>, local: set<Address>)
    requires forall tx :: tx in items ==> tx.sender !in local
    ensures RemoteEntries(items, local) == |items|
    decreases |items|
  {
    if items != [] {
      AllRemote(items[..|items| - 1], local);
    }
  }

  lemma CutFacts(items: seq<Tx>, all: set<Tx>, big: Tx, small: Tx)
    requires Heap.IsHeap(items, PriceRank) && OneEntryEach(items, all) && all == {big, small} && |items| == 2
    requires big.sender != 0 && small.sender != 0 && big.price < small.price && NumSlots(big) == 4
    ensures RemoteEntries(items, {0}) == 2 && Enough(Candidates(items, all, {0}), 2) == [big]
  {
    hide Heap.IsHeap, Heap.Order, NumSlots;
    var order := Heap.Order(items, PriceRank);
    Heap.OrderSame(items, PriceRank);
    forall i, j | 0 <= i < j < |order| ensures NoDearer(order[i], order[j]) { Ordered(items, i, j); }
    forall t | t in order ensures t in all { assert t in multiset(order); }
    forall t | t in items ensures t in all { assert t in multiset(items); }
    CheapestFirst(order, big);
    AllRemote(items, {0});
    var more := RemoteLive(order[1..], all, {0});
    assert ([big] + more)[1..] == more;
  }
}
