/** Transactions as the pool sees them, and plain nonce-indexed maps of them. */
module TxTypes {
  import opened Collections

  type Address = nat
  type Byte = n: nat | n < 256
  type Positive = n: nat | 0 < n witness 1

  /** A signed transaction. The hash of a transaction is modelled by the transaction
      itself: `id` stands for the signature and payload that tell apart two transactions
      agreeing on every other field. The sender is recovered from the signature. */
  datatype Tx = Tx(id: nat, sender: Address, nonce: nat, price: nat, gas: nat, value: int,
                   size: Positive, create: bool, data: seq<Byte>)
  {
    function Cost(): int {
      value + price * gas
    }
  }

  const KIB: Positive := 1024
  const TX_SLOT_SIZE: nat := 32 * KIB
  const TX_MAX_SIZE: nat := 4 * TX_SLOT_SIZE

  function NumSlots(tx: Tx): (n: nat)
    ensures 0 < n
    ensures (n - 1) * TX_SLOT_SIZE < tx.size <= n * TX_SLOT_SIZE
  {
    (tx.size + TX_SLOT_SIZE - 1) / TX_SLOT_SIZE
  }

  type NonceMap = map<nat, Tx>

  function Count(items: NonceMap): nat {
    |items|
  }

  /** The transactions of a nonce map, as a set. */
  ghost function Txs(items: NonceMap): set<Tx> {
    items.Values
  }

  lemma NoTxs()
    ensures Txs(map[]) == {}
  {
  }

  ghost predicate Keyed(items: NonceMap) {
    forall n :: n in items ==> items[n].nonce == n
  }

  function Below(items: NonceMap, threshold: nat): NonceMap {
    map n | n in items && n < threshold :: items[n]
  }

  function AtLeast(items: NonceMap, threshold: nat): NonceMap {
    map n | n in items && threshold <= n :: items[n]
  }

  function Select(items: NonceMap, f: Tx -> bool): NonceMap {
    map n | n in items && f(items[n]) :: items[n]
  }

  function Reject(items: NonceMap, f: Tx -> bool): NonceMap {
    map n | n in items && !f(items[n]) :: items[n]
  }

  function Unpayable(costLimit: int, gasLimit: nat): Tx -> bool {
    (tx: Tx) => tx.gas > gasLimit || tx.Cost() > costLimit
  }

  function Above(nonce: nat): Tx -> bool {
    (tx: Tx) => tx.nonce > nonce
  }

  /** The contents in nonce order. */
  function Sorted(items: NonceMap): seq<Tx>
    decreases |items|
  {
    if items == map[] then []
    else
      var n := Min(items.Keys);
      [items[n]] + Sorted(items - {n})
  }

  /** The contents left after dropping the highest nonces until at most k remain. */
  function Lowest(items: NonceMap, k: nat): NonceMap
    decreases |items|
  {
    if |items| <= k then items
    else Lowest(items - {Max(items.Keys)}, k)
  }

  /** What Lowest drops, highest nonce first. */
  function Dropped(items: NonceMap, k: nat): seq<Tx>
    decreases |items|
  {
    if |items| <= k then []
    else
      var top := Max(items.Keys);
      [items[top]] + Dropped(items - {top}, k)
  }

  /** How many consecutive nonces from start on are present. */
  function RunLength(items: NonceMap, start: nat): nat
    decreases |items|
  {
    if start in items then 1 + RunLength(items - {start}, start + 1) else 0
  }

  function Run(items: NonceMap, start: nat): NonceMap {
    map n | n in items && start <= n < start + RunLength(items, start) :: items[n]
  }

  /** What is ready for execution when the account expects nonce start: the consecutive
      run from the smallest nonce, provided that nonce is not beyond start. */
  function Ready(items: NonceMap, start: nat): NonceMap {
    if items == map[] || Min(items.Keys) > start then map[] else Run(items, Min(items.Keys))
  }

  ghost predicate InNonceOrder(s: seq<Tx>) {
    forall i, j :: 0 <= i < j < |s| ==> s[i].nonce < s[j].nonce
  }

  ghost predicate Holds(items: NonceMap, tx: Tx) {
    tx.nonce in items && items[tx.nonce] == tx
  }

  /** Sorted lists exactly the contents, each once, in nonce order. */
  lemma {:induction false} SortedLists(items: NonceMap)
    requires Keyed(items)
    ensures InNonceOrder(Sorted(items))
    ensures forall tx :: tx in Sorted(items) <==> Holds(items, tx)
    ensures |Sorted(items)| == |items|
    decreases |items|
  {
    if items != map[] {
      var n := Min(items.Keys);
      var rest := items - {n};
      SortedLists(rest);
      var s, t := Sorted(items), Sorted(rest);
      assert s == [items[n]] + t;
      forall i, j | 0 <= i < j < |s| ensures s[i].nonce < s[j].nonce {
        assert s[j] == t[j - 1] && t[j - 1] in t;
        assert Holds(rest, t[j - 1]);
      }
      forall tx ensures tx in s <==> Holds(items, tx) {
        assert tx in s <==> tx == items[n] || tx in t;
      }
    }
  }

  lemma SomethingListed(s: seq<Tx>, items: NonceMap)
    requires forall tx :: tx in s ==> Holds(items, tx)
    ensures s != [] ==> items != map[]
  {
    if s != [] {
      assert s[0] in s;
    }
  }

  /** There is only one sequence that lists the contents in nonce order. */
  lemma {:induction false} SortedUnique(s: seq<Tx>, items: NonceMap)
    requires Keyed(items) && InNonceOrder(s)
    requires forall tx :: tx in s <==> Holds(items, tx)
    ensures s == Sorted(items)
    decreases |items|
  {
    SomethingListed(s, items);
    if items != map[] {
      var n := Min(items.Keys);
      assert Holds(items, items[n]);
      var i :| 0 <= i < |s| && s[i] == items[n];
      assert Holds(items, s[0]);
      var rest := items - {n};
      assert s == [s[0]] + s[1..];
      forall tx ensures tx in s[1..] <==> Holds(rest, tx) {
        assert tx in s <==> tx == s[0] || tx in s[1..];
      }
      SortedUnique(s[1..], rest);
    }
  }

  lemma SortedSplit(items: NonceMap, threshold: nat)
    requires Keyed(items)
    ensures Sorted(items) == Sorted(Below(items, threshold)) + Sorted(AtLeast(items, threshold))
  {
    var lo, hi := Below(items, threshold), AtLeast(items, threshold);
    SortedLists(lo);
    SortedLists(hi);
    var s := Sorted(lo) + Sorted(hi);
    Ordered(Sorted(lo), Sorted(hi), threshold);
    forall tx ensures tx in s <==> Holds(items, tx) {
      assert tx in s <==> tx in Sorted(lo) || tx in Sorted(hi);
    }
    SortedUnique(s, items);
  }

  lemma Ordered(a: seq<Tx>, b: seq<Tx>, threshold: nat)
    requires InNonceOrder(a) && InNonceOrder(b)
    requires forall tx :: tx in a ==> tx.nonce < threshold
    requires forall tx :: tx in b ==> threshold <= tx.nonce
    ensures InNonceOrder(a + b)
  {
  }

  lemma SortedOne(items: NonceMap, n: nat)
    requires items.Keys == {n}
    ensures Sorted(items) == [items[n]]
  {
    assert Min(items.Keys) in items.Keys;
    assert items - {n} == map[];
  }

  lemma SortedDropMax(items: NonceMap)
    requires Keyed(items) && items != map[]
    ensures var top := Max(items.Keys); Sorted(items) == Sorted(items - {top}) + [items[top]]
  {
    hide Sorted;
    var top := Max(items.Keys);
    SortedSplit(items, top);
    assert AtLeast(items, top).Keys == {top} && AtLeast(items, top)[top] == items[top];
    SortedOne(AtLeast(items, top), top);
    assert Below(items, top) == items - {top};
  }

  /** Lowest keeps the k smallest nonces: the first k of the contents in nonce order. */
  lemma {:induction false} LowestFacts(items: NonceMap, k: nat)
    ensures var low := Lowest(items, k);
            && low.Keys <= items.Keys && (forall n :: n in low ==> low[n] == items[n])
            && |low| == (if |items| <= k then |items| else k)
            && (forall n, m :: n in low && m in items && m !in low ==> n < m)
    decreases |items|
  {
    if |items| > k {
      var top := Max(items.Keys);
      LowestFacts(items - {top}, k);
    }
  }

  lemma {:induction false} LowestSorted(items: NonceMap, k: nat)
    requires Keyed(items) && k <= |items|
    ensures |Sorted(items)| == |items|
    ensures Sorted(Lowest(items, k)) == Sorted(items)[..k]
    decreases |items|
  {
    SortedLists(items);
    if |items| > k {
      var top := Max(items.Keys);
      var rest := items - {top};
      SortedDropMax(items);
      LowestSorted(rest, k);
      assert Sorted(items)[..k] == Sorted(rest)[..k];
    }
  }

  /** What is dropped and what is kept partition the contents, kept nonces below dropped ones. */
  lemma {:induction false} DroppedFacts(items: NonceMap, k: nat)
    requires Keyed(items)
    ensures |Dropped(items, k)| + |Lowest(items, k)| == |items|
    ensures forall tx :: tx in Dropped(items, k) <==> Holds(items, tx) && tx.nonce !in Lowest(items, k)
    decreases |items|
  {
    if |items| > k {
      var top := Max(items.Keys);
      var rest := items - {top};
      DroppedFacts(rest, k);
      LowestFacts(rest, k);
      forall tx ensures tx in Dropped(items, k) <==> Holds(items, tx) && tx.nonce !in Lowest(items, k) {
        assert tx in Dropped(items, k) <==> tx == items[top] || tx in Dropped(rest, k);
      }
    }
  }

  /** A consecutive run covers exactly the nonces up to the first gap. */
  lemma {:induction false} RunFacts(items: NonceMap, start: nat)
    ensures start + RunLength(items, start) !in items
    ensures forall n :: start <= n < start + RunLength(items, start) ==> n in items
    decreases |items|
  {
    if start in items {
      var rest := items - {start};
      RunFacts(rest, start + 1);
      forall n | start <= n < start + RunLength(items, start) ensures n in items {
        assert n == start || n in rest;
      }
    }
  }

  lemma ValuesHold(items: NonceMap)
    requires Keyed(items)
    ensures forall tx :: tx in Txs(items) <==> Holds(items, tx)
  {
    forall tx ensures tx in Txs(items) <==> Holds(items, tx) {
      if Holds(items, tx) { assert items[tx.nonce] in Txs(items); }
    }
  }

  lemma ValuesMinus(items: NonceMap, n: nat)
    requires Keyed(items) && n in items
    ensures Txs(items - {n}) == Txs(items) - {items[n]}
  {
    forall tx | tx in Txs(items) - {items[n]} ensures tx in Txs(items - {n}) {
      assert Holds(items - {n}, tx);
    }
  }

  /** Taking the first of the sorted contents out leaves the rest sorted. */
  lemma SortedHead(items: NonceMap)
    requires Keyed(items) && Sorted(items) != []
    ensures Holds(items, Sorted(items)[0])
    ensures Sorted(items - {Sorted(items)[0].nonce}) == Sorted(items)[1..]
  {
  }

  /** Taking the last of the sorted contents out leaves the lowest ones. */
  lemma SortedTail(items: NonceMap)
    requires Keyed(items) && items != map[]
    ensures |Sorted(items)| == |items| && Holds(items, Sorted(items)[|items| - 1])
    ensures items - {Sorted(items)[|items| - 1].nonce} == Lowest(items, |items| - 1)
  {
    SortedDropMax(items);
    SortedLists(items);
    var top := Max(items.Keys);
    assert items - {top} == Lowest(items, |items| - 1);
  }

  lemma {:induction false} LowestAgain(items: NonceMap, k: nat, j: nat)
    requires j <= k
    ensures Lowest(Lowest(items, k), j) == Lowest(items, j)
    decreases |items|
  {
    if |items| > k {
      LowestAgain(items - {Max(items.Keys)}, k, j);
    }
  }

  lemma {:induction false} ValuesSize(items: NonceMap)
    ensures |Txs(items)| <= |items|
    decreases |items|
  {
    if items != map[] {
      var n :| n in items;
      var rest := items - {n};
      ValuesSize(rest);
      forall tx | tx in Txs(items) ensures tx in Txs(rest) + {items[n]} {
        var m :| m in items && items[m] == tx;
        assert m == n || rest[m] in Txs(rest);
      }
      SubsetSize(Txs(items), Txs(rest) + {items[n]});
    }
  }

  lemma SortedEmpty(items: NonceMap)
    ensures Sorted(items) == [] <==> items == map[]
  {
  }

  lemma SortedLast(items: NonceMap)
    requires Keyed(items) && items != map[]
    ensures Sorted(items) != [] && Sorted(items)[|Sorted(items)| - 1].nonce == Max(items.Keys)
  {
    SortedDropMax(items);
  }
}
