/** The nonce-sorted transaction map: a hash map, a heap of its nonces and a lazily built
    sorted cache, kept in agreement by every operation (core/tx_list.go). */
module SortedMap {
  import opened Collections
  import opened TxTypes
  import Heap

  function NonceRank(n: nat): Heap.Rank {
    Heap.Rank(n, 0)
  }

  ghost predicate Ascending(s: seq<nat>) {
    forall i, j :: 0 <= i < j < |s| ==> s[i] <= s[j]
  }

  /** Sorts by popping a heap, standing for the library's sort of a slice of nonces. */
  method SortNonces(s: seq<nat>) returns (r: seq<nat>)
    ensures multiset(r) == multiset(s)
    ensures Ascending(r)
  {
    hide Heap.Rest, Heap.Le;
    var h := Heap.Init(s, NonceRank);
    r := [];
    while h != []
      invariant Heap.IsHeap(h, NonceRank)
      invariant multiset(r) + multiset(h) == multiset(s)
      invariant Ascending(r)
      invariant r != [] ==> forall x :: x in h ==> r[|r| - 1] <= x
      decreases |h|
    {
      var n, rest := Heap.Pop(h, NonceRank);
      Popped(h, n, rest);
      h := rest;
      r := r + [n];
    }
  }

  lemma Popped(h: seq<nat>, n: nat, rest: seq<nat>)
    requires multiset(h) == multiset(rest) + multiset{n}
    requires forall y :: y in h ==> Heap.Le(NonceRank(n), NonceRank(y))
    ensures n in h && |rest| < |h| && forall x :: x in rest ==> n <= x && x in h
  {
    assert |multiset(h)| == |multiset(rest)| + 1;
    assert n in multiset(h);
    forall x | x in rest ensures n <= x && x in h {
      assert x in multiset(rest);
      assert x in multiset(h);
      assert x in h && Heap.Le(NonceRank(n), NonceRank(x));
    }
  }

  /** keys holds exactly the nonces of items, in increasing order. */
  ghost predicate KeysOf(keys: seq<nat>, items: NonceMap) {
    && (forall i, j :: 0 <= i < j < |keys| ==> keys[i] < keys[j])
    && (forall n :: n in keys <==> n in items)
  }

  lemma SortedKeys(keys: seq<nat>, items: NonceMap)
    requires Ascending(keys) && Once(multiset(keys), items.Keys)
    ensures KeysOf(keys, items)
  {
    forall i, j | 0 <= i < j < |keys| ensures keys[i] < keys[j] {
      Distinct(keys, i, j, items.Keys);
    }
    forall n ensures n in keys <==> n in items {
      assert n in keys <==> n in multiset(keys);
    }
  }

  lemma Distinct(keys: seq<nat>, i: nat, j: nat, set0: set<nat>)
    requires i < j < |keys| && Once(multiset(keys), set0)
    ensures keys[i] != keys[j]
  {
    var n := keys[i];
    assert keys == keys[..j] + keys[j..];
    assert keys[..j][i] == n;
    assert n in multiset(keys[..j]);
    assert keys[j..][0] == keys[j];
    assert keys[j] in multiset(keys[j..]);
    assert multiset(keys)[n] == multiset(keys[..j])[n] + multiset(keys[j..])[n];
  }

  lemma {:induction false} KeysOnce(keys: seq<nat>, items: NonceMap)
    requires KeysOf(keys, items)
    ensures Once(multiset(keys), items.Keys)
    decreases |keys|
  {
    if keys != [] {
      var init, top := keys[..|keys| - 1], keys[|keys| - 1];
      assert keys == keys[..|keys|];
      KeysLast(keys, |keys|, items);
      KeysOnce(init, items - {top});
      assert keys == init + [top];
    }
  }

  /** The last of the increasing nonces is the largest one. */
  lemma KeysLast(index: seq<nat>, size: nat, items: NonceMap)
    requires 0 < size <= |index| && KeysOf(index[..size], items)
    ensures index[size - 1] in items && index[size - 1] == Max(items.Keys)
    ensures KeysOf(index[..size - 1], items - {index[size - 1]})
  {
    var init, top := index[..size - 1], index[size - 1];
    assert index[..size] == init + [top];
    forall n ensures n in init <==> n in items && n != top {
      assert n in index[..size] <==> n in init || n == top;
    }
    assert forall n :: n in items ==> n in index[..size] && n <= top;
  }

  /** Looking up the increasing nonces one by one yields the contents in nonce order. */
  lemma SortedByKeys(keys: seq<nat>, items: NonceMap)
    requires Keyed(items) && KeysOf(keys, items)
    ensures Sorted(items) == seq(|keys|, i requires 0 <= i < |keys| && keys[i] in items => items[keys[i]])
  {
    var s := seq(|keys|, i requires 0 <= i < |keys| && keys[i] in items => items[keys[i]]);
    forall tx ensures tx in s <==> Holds(items, tx) {
      if Holds(items, tx) {
        var i :| 0 <= i < |keys| && keys[i] == tx.nonce;
        assert s[i] == tx;
      }
    }
    SortedUnique(s, items);
  }

  lemma CancelTail<T>(a: seq<T>, b: seq<T>, c: seq<T>)
    requires a + c == b + c
    ensures a == b
  {
    assert |a| == |b|;
    assert a == (a + c)[..|a|] == (b + c)[..|b|] == b;
  }

  /** Every nonce from lo up to but excluding hi is present. */
  ghost predicate Spans(items: NonceMap, lo: nat, hi: nat) {
    forall n :: lo <= n < hi ==> n in items
  }

  lemma AtLeastStep(items: NonceMap, n: nat)
    ensures AtLeast(items, n) - {n} == AtLeast(items, n + 1)
    ensures forall lo :: n in items && Spans(items, lo, n) ==> Spans(items, lo, n + 1)
  {
  }

  /** The run taken by Ready is everything below the first gap above the smallest nonce. */
  lemma ReadyIsPrefix(items: NonceMap, first: nat, next: nat)
    requires items != map[] && first == Min(items.Keys) && first <= next
    requires Spans(items, first, next)
    requires next !in items
    ensures Run(items, first) == Below(items, next)
  {
    RunFacts(items, first);
    var k := RunLength(items, first);
    assert first + k == next;
  }

  lemma ForwardDone(all: NonceMap, rest: NonceMap, removed: seq<Tx>, threshold: nat)
    requires Keyed(all) && Sorted(all) == removed + Sorted(rest)
    requires AtLeast(rest, threshold) == AtLeast(all, threshold)
    requires rest == map[] || threshold <= Min(rest.Keys)
    ensures rest == AtLeast(all, threshold) && removed == Sorted(Below(all, threshold))
    ensures |removed| <= |Sorted(all)| && Sorted(all)[|removed|..] == Sorted(rest)
  {
    assert rest == AtLeast(rest, threshold);
    SortedSplit(all, threshold);
    CancelTail(removed, Sorted(Below(all, threshold)), Sorted(rest));
  }

  lemma ReadyDone(all: NonceMap, rest: NonceMap, ready: seq<Tx>, first: nat, next: nat)
    requires Keyed(all) && Sorted(all) == ready + Sorted(rest) && rest == AtLeast(all, next)
    requires all != map[] && first == Min(all.Keys) <= next && Spans(all, first, next) && next !in all
    ensures ready == Sorted(Run(all, first)) && rest == all - Run(all, first).Keys
  {
    ReadyIsPrefix(all, first, next);
    SortedSplit(all, next);
    CancelTail(ready, Sorted(Below(all, next)), Sorted(rest));
  }

  lemma NothingSelected(items: NonceMap, f: Tx -> bool)
    requires Select(items, f) == map[]
    ensures Reject(items, f) == items
  {
    forall n | n in items ensures !f(items[n]) {
      assert n !in Select(items, f);
    }
  }

  /** Goes over the map in arbitrary order, taking out what the filter selects. */
  method Partition(items: NonceMap, filter: Tx -> bool) returns (kept: NonceMap, removed: NonceMap)
    ensures kept == Reject(items, filter) && removed == Select(items, filter)
  {
    kept, removed := items, map[];
    var todo := items.Keys;
    while todo != {}
      invariant todo <= items.Keys
      invariant kept == map n | n in items && (n in todo || !filter(items[n])) :: items[n]
      invariant removed == map n | n in items && n !in todo && filter(items[n]) :: items[n]
      decreases |todo|
    {
      var nonce :| nonce in todo;
      todo := todo - {nonce};
      if filter(items[nonce]) {
        removed, kept := removed[nonce := items[nonce]], kept - {nonce};
      }
    }
  }

  /** Midway through a cap: the first size nonces of the sorted index are still present. */
  ghost predicate Capping(index: seq<nat>, size: nat, kept: NonceMap, drops: seq<Tx>, items: NonceMap, threshold: nat) {
    && threshold <= size <= |index| && |kept| == size
    && KeysOf(index[..size], kept)
    && Lowest(kept, threshold) == Lowest(items, threshold)
    && drops + Dropped(kept, threshold) == Dropped(items, threshold)
  }

  lemma CapStep(index: seq<nat>, size: nat, kept: NonceMap, drops: seq<Tx>, items: NonceMap, threshold: nat)
    requires Capping(index, size, kept, drops, items, threshold) && threshold < size
    ensures var top := index[size - 1];
            top in kept && Capping(index, size - 1, kept - {top}, drops + [kept[top]], items, threshold)
  {
    KeysLast(index, size, kept);
    var top := index[size - 1];
    assert Dropped(kept, threshold) == [kept[top]] + Dropped(kept - {top}, threshold);
  }

  /** Deletes the nonces at the end of the sorted index until only the limit remains. */
  method DropHighest(items: NonceMap, index: seq<nat>, threshold: nat) returns (kept: NonceMap, drops: seq<Tx>)
    requires KeysOf(index, items) && threshold < |items| == |index|
    ensures kept == Lowest(items, threshold) && drops == Dropped(items, threshold)
    ensures KeysOf(index[..threshold], kept)
  {
    hide Capping, KeysOf, Lowest, Dropped;
    kept, drops := items, [];
    var size := |items|;
    CapStart(index, items, threshold);
    while size > threshold
      invariant threshold <= size <= |index|
      invariant Capping(index, size, kept, drops, items, threshold)
    {
      CapStep(index, size, kept, drops, items, threshold);
      drops := drops + [kept[index[size - 1]]];
      kept := kept - {index[size - 1]};
      size := size - 1;
    }
    CapEnd(index, kept, drops, items, threshold);
  }

  lemma CapStart(index: seq<nat>, items: NonceMap, threshold: nat)
    requires KeysOf(index, items) && threshold < |items| == |index|
    ensures Capping(index, |items|, items, [], items, threshold)
  {
    assert index[..|items|] == index;
  }

  lemma CapEnd(index: seq<nat>, kept: NonceMap, drops: seq<Tx>, items: NonceMap, threshold: nat)
    requires Capping(index, threshold, kept, drops, items, threshold)
    ensures kept == Lowest(items, threshold) && drops == Dropped(items, threshold) && KeysOf(index[..threshold], kept)
  {
  }

  /** Sorts the index, drops the highest nonces and restores the heap. */
  method CapIndex(items: NonceMap, index: seq<nat>, threshold: nat)
    returns (kept: NonceMap, newIndex: seq<nat>, drops: seq<Tx>)
    requires Once(multiset(index), items.Keys) && threshold < |items|
    ensures kept == Lowest(items, threshold) && drops == Dropped(items, threshold)
    ensures Once(multiset(newIndex), kept.Keys) && Heap.IsHeap(newIndex, NonceRank)
  {
    var sorted := SortNonces(index);
    OnceSize(multiset(sorted), items.Keys);
    SortedKeys(sorted, items);
    kept, drops := DropHighest(items, sorted, threshold);
    KeysOnce(sorted[..threshold], kept);
    newIndex := Heap.Init(sorted[..threshold], NonceRank);
  }

  lemma CapFacts(items: NonceMap, threshold: nat)
    requires Keyed(items) && threshold < |items|
    ensures Keyed(Lowest(items, threshold))
    ensures var s, n := Sorted(items), |Dropped(items, threshold)|;
            n <= |s| && Sorted(Lowest(items, threshold)) == s[..|s| - n]
  {
    LowestSorted(items, threshold);
    LowestFacts(items, threshold);
    DroppedFacts(items, threshold);
  }

  class TxSortedMap {
    var items: NonceMap
    var index: seq<nat>
    var cache: Option<seq<Tx>>

    /** The index holds every nonce once, in heap order. */
    ghost predicate Indexed()
      reads this`items, this`index
    {
      && Keyed(items)
      && Once(multiset(index), items.Keys)
      && Heap.IsHeap(index, NonceRank)
    }

    /** A present cache is the sorted contents. */
    ghost predicate Valid()
      reads this
    {
      Indexed() && (cache.Some? ==> cache.value == Sorted(items))
    }

    constructor ()
      ensures Valid() && items == map[]
    {
      items, index, cache := map[], [], None;
    }

    method Get(nonce: nat) returns (tx: Option<Tx>)
      ensures tx == if nonce in items then Some(items[nonce]) else None
    {
      tx := if nonce in items then Some(items[nonce]) else None;
    }

    method Put(tx: Tx)
      requires Valid()
      modifies this
      ensures Valid() && items == old(items)[tx.nonce := tx]
    {
      if tx.nonce !in items {
        index := Heap.Push(index, tx.nonce, NonceRank);
        assert items[tx.nonce := tx].Keys == items.Keys + {tx.nonce};
      } else {
        assert items[tx.nonce := tx].Keys == items.Keys;
      }
      items, cache := items[tx.nonce := tx], None;
    }

    /** The root of the index is the smallest nonce present. */
    lemma RootIsMin()
      requires Indexed()
      ensures |index| == |items|
      ensures index != [] ==> index[0] == Min(items.Keys)
    {
      OnceSize(multiset(index), items.Keys);
      if index != [] {
        Heap.RootIsLeastAll(index, NonceRank);
        assert index[0] in multiset(index);
        assert index[0] in items.Keys;
        var n := Min(items.Keys);
        assert n in multiset(index);
        assert n in index && Heap.Le(NonceRank(index[0]), NonceRank(n));
      }
    }

    /** Takes the smallest nonce out of the index and the hash map. */
    method PopMin() returns (tx: Tx)
      requires Indexed() && index != []
      modifies this`items, this`index
      ensures Indexed()
      ensures old(items) != map[] && tx == old(items)[Min(old(items).Keys)]
      ensures items == old(items) - {Min(old(items).Keys)}
    {
      RootIsMin();
      var nonce;
      nonce, index := Heap.Pop(index, NonceRank);
      tx := items[nonce];
      items := items - {nonce};
      assert items.Keys == old(items).Keys - {nonce};
    }

    /** Pops nonces off the heap until the threshold is reached. */
    method PopBelow(threshold: nat) returns (removed: seq<Tx>)
      requires Indexed()
      modifies this`items, this`index
      ensures Indexed()
      ensures items == AtLeast(old(items), threshold)
      ensures removed == Sorted(Below(old(items), threshold))
      ensures |removed| <= |Sorted(old(items))| && Sorted(old(items))[|removed|..] == Sorted(items)
    {
      hide Sorted, Below, Heap.IsHeap, Once;
      removed := [];
      ghost var all := items;
      while index != [] && index[0] < threshold
        invariant Indexed()
        invariant Sorted(all) == removed + Sorted(items)
        invariant AtLeast(items, threshold) == AtLeast(all, threshold)
        decreases |items|
      {
        removed := PopNext(removed);
      }
      RootIsMin();
      ForwardDone(all, items, removed, threshold);
    }

    /** Removes all nonces below the threshold and returns them in nonce order. */
    method Forward(threshold: nat) returns (removed: seq<Tx>)
      requires Valid()
      modifies this
      ensures Valid()
      ensures items == AtLeast(old(items), threshold)
      ensures removed == Sorted(Below(old(items), threshold))
    {
      removed := PopBelow(threshold);
      if cache.Some? {
        cache := Some(cache.value[|removed|..]);
      }
    }

    /** Removes every transaction the filter selects; the heap is left to be rebuilt. */
    method FilterItems(filter: Tx -> bool) returns (removed: NonceMap)
      requires Valid()
      modifies this`items, this`cache
      ensures Keyed(items) && items == Reject(old(items), filter)
      ensures removed == Select(old(items), filter)
      ensures cache == if removed == map[] then old(cache) else None
    {
      items, removed := Partition(items, filter);
      if removed != map[] {
        cache := None;
      }
    }

    method Reheap()
      requires Keyed(items)
      modifies this`index, this`cache
      ensures Valid()
    {
      index := [];
      var todo := items.Keys;
      while todo != {}
        invariant todo <= items.Keys
        invariant Once(multiset(index), items.Keys - todo)
        decreases |todo|
      {
        var nonce :| nonce in todo;
        assert items.Keys - (todo - {nonce}) == (items.Keys - todo) + {nonce};
        todo := todo - {nonce};
        index := index + [nonce];
      }
      assert items.Keys - todo == items.Keys;
      index := Heap.Init(index, NonceRank);
      cache := None;
    }

    method Filter(filter: Tx -> bool) returns (removed: NonceMap)
      requires Valid()
      modifies this
      ensures Valid()
      ensures items == Reject(old(items), filter)
      ensures removed == Select(old(items), filter)
    {
      removed := FilterItems(filter);
      if removed != map[] {
        Reheap();
      } else {
        NothingSelected(old(items), filter);
      }
    }

    /** Keeps the lowest nonces and returns what exceeds the limit, highest nonce first. */
    method Cap(threshold: nat) returns (drops: seq<Tx>)
      requires Valid()
      modifies this
      ensures Valid()
      ensures items == Lowest(old(items), threshold)
      ensures drops == Dropped(old(items), threshold)
    {
      if |items| <= threshold {
        return [];
      }
      items, index, drops := CapIndex(items, index, threshold);
      CapFacts(old(items), threshold);
      if cache.Some? {
        cache := Some(cache.value[..|cache.value| - |drops|]);
      }
    }

    /** Deletes one nonce, reporting whether it was present. */
    method Remove(nonce: nat) returns (found: bool)
      requires Valid()
      modifies this
      ensures Valid() && items == old(items) - {nonce}
      ensures found == (nonce in old(items))
    {
      if nonce !in items {
        assert items - {nonce} == items;
        return false;
      }
      assert nonce in multiset(index);
      var i := 0;
      while index[i] != nonce
        invariant 0 <= i < |index|
        invariant nonce in index[i..]
        decreases |index| - i
      {
        i := i + 1;
      }
      index := Heap.Remove(index, i, NonceRank);
      items, cache := items - {nonce}, None;
      assert items.Keys == old(items).Keys - {nonce};
      return true;
    }

    /** Pops consecutive nonces off the heap, starting with the smallest. */
    method PopRun() returns (ready: seq<Tx>)
      requires Indexed() && index != []
      modifies this`items, this`index
      ensures Indexed()
      ensures old(items) != map[] && ready == Sorted(Run(old(items), Min(old(items).Keys)))
      ensures items == old(items) - Run(old(items), Min(old(items).Keys)).Keys
    {
      RootIsMin();
      ready := [];
      ghost var all, first := items, index[0];
      var next := index[0];
      while index != [] && index[0] == next
        invariant Indexed() && first <= next
        invariant items == AtLeast(all, next) && Spans(all, first, next)
        invariant index != [] ==> next <= index[0]
        invariant Sorted(all) == ready + Sorted(items)
        decreases |items|
      {
        AtLeastStep(all, next);
        ready := PopNext(ready);
        next := next + 1;
      }
      assert next !in items by { RootIsMin(); }
      ReadyDone(all, items, ready, first, next);
    }

    /** Removes and returns the consecutive run of transactions from the smallest nonce,
        provided that nonce is not beyond start. */
    method Ready(start: nat) returns (ready: seq<Tx>)
      requires Valid()
      modifies this
      ensures Valid()
      ensures ready == Sorted(TxTypes.Ready(old(items), start))
      ensures items == old(items) - TxTypes.Ready(old(items), start).Keys
    {
      RootIsMin();
      if index == [] || index[0] > start {
        return [];
      }
      ready := PopRun();
      cache := None;
    }

    /** One round of Ready: the smallest nonce moves to the end of the ready transactions. */
    method PopNext(ready: seq<Tx>) returns (more: seq<Tx>)
      requires Indexed() && index != []
      modifies this`items, this`index
      ensures Indexed() && old(items) != map[] && Min(old(items).Keys) == old(index)[0]
      ensures items == old(items) - {old(index)[0]} && |items| < |old(items)|
      ensures more + Sorted(items) == ready + Sorted(old(items))
      ensures index != [] ==> old(index)[0] < index[0]
    {
      RootIsMin();
      ghost var before := items;
      var tx := PopMin();
      RootIsMin();
      assert Sorted(before) == [tx] + Sorted(items);
      more := ready + [tx];
    }

    /** The sorted contents, from the cache when it is present. */
    method FlattenCached() returns (txs: seq<Tx>)
      requires Valid()
      modifies this`cache
      ensures Valid() && cache == Some(txs) && txs == Sorted(items)
    {
      if cache == None {
        var keys := SortNonces(index);
        SortedKeys(keys, items);
        SortedByKeys(keys, items);
        var m := items;
        txs := seq(|keys|, i requires 0 <= i < |keys| && keys[i] in m => m[keys[i]]);
        assert txs == Sorted(items);
        cache := Some(txs);
      } else {
        txs := cache.value;
      }
    }

    method Flatten() returns (txs: seq<Tx>)
      requires Valid()
      modifies this`cache
      ensures Valid() && txs == Sorted(items)
    {
      txs := FlattenCached();
    }

    /** The transaction with the highest nonce. */
    method LastElement() returns (tx: Tx)
      requires Valid() && items != map[]
      modifies this`cache
      ensures Valid() && tx == items[Max(items.Keys)]
    {
      var txs := FlattenCached();
      SortedDropMax(items);
      tx := txs[|txs| - 1];
    }
  }
}
