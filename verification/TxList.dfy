/** The transaction list of one account: nonce-sorted contents plus cached caps on cost and gas
    that let Filter skip its work (core/tx_list.go). */
module List {
  import opened Collections
  import opened TxTypes
  import SortedMap

  datatype AddResult = AddResult(inserted: bool, replaced: Option<Tx>, list: ListState)
  datatype FilterResult = FilterResult(removed: NonceMap, invalids: NonceMap, list: ListState)
  datatype RemoveResult = RemoveResult(found: bool, invalids: NonceMap, list: ListState)

  /** The value of a transaction list. */
  datatype ListState = ListState(strict: bool, items: NonceMap, costcap: int, gascap: nat)
  {
    /** The caps bound the cost and the gas of every transaction in the list. */
    ghost predicate Valid() {
      && Keyed(items)
      && forall n :: n in items ==> items[n].Cost() <= costcap && items[n].gas <= gascap
    }

    /** Replacing needs a strictly higher price that also clears the percentage bump. */
    static predicate Replaces(tx: Tx, prior: Tx, priceBump: nat) {
      prior.price < tx.price && prior.price * (100 + priceBump) / 100 <= tx.price
    }

    function Add(tx: Tx, priceBump: nat): AddResult {
      if tx.nonce in items && !Replaces(tx, items[tx.nonce], priceBump) then
        AddResult(false, None, this)
      else
        AddResult(true, if tx.nonce in items then Some(items[tx.nonce]) else None,
          ListState(strict, items[tx.nonce := tx],
            if costcap < tx.Cost() then tx.Cost() else costcap,
            if gascap < tx.gas then tx.gas else gascap))
    }

    function Forward(threshold: nat): ListState {
      this.(items := AtLeast(items, threshold))
    }

    function Filter(costLimit: int, gasLimit: nat): FilterResult {
      if costcap <= costLimit && gascap <= gasLimit then FilterResult(map[], map[], this)
      else
        var removed := Select(items, Unpayable(costLimit, gasLimit));
        var kept := Reject(items, Unpayable(costLimit, gasLimit));
        var capped := ListState(strict, kept, costLimit, gasLimit);
        if removed == map[] || !strict then FilterResult(removed, map[], capped)
        else
          var lowest := Min(removed.Keys);
          FilterResult(removed, Select(kept, Above(lowest)), capped.(items := Reject(kept, Above(lowest))))
    }

    function Cap(threshold: nat): ListState {
      this.(items := Lowest(items, threshold))
    }

    function Remove(nonce: nat): RemoveResult {
      if nonce !in items then RemoveResult(false, map[], this)
      else
        var rest := items - {nonce};
        if strict then RemoveResult(true, Select(rest, Above(nonce)), this.(items := Reject(rest, Above(nonce))))
        else RemoveResult(true, map[], this.(items := rest))
    }

    function TakeReady(start: nat): ListState {
      this.(items := items - Ready(items, start).Keys)
    }
  }

  function EmptyList(strict: bool): ListState {
    ListState(strict, map[], 0, 0)
  }

  /** The bump without the rounding: a replacement pays more, and less than one unit below the old
      price raised by the percentage. So no transaction is replaced by one it could replace. */
  lemma ReplacesExact(tx: Tx, prior: Tx, priceBump: nat)
    ensures ListState.Replaces(tx, prior, priceBump) <==>
              prior.price < tx.price && prior.price * (100 + priceBump) < 100 * (tx.price + 1)
    ensures ListState.Replaces(tx, prior, priceBump) ==> !ListState.Replaces(prior, tx, priceBump)
  {
    var raised := prior.price * (100 + priceBump);
    assert raised == raised / 100 * 100 + raised % 100;
  }

  /** Adding raises the caps as far as the new transaction needs. */
  lemma AddKeepsCaps(l: ListState, tx: Tx, priceBump: nat)
    requires l.Valid()
    ensures l.Add(tx, priceBump).list.Valid()
  {
  }

  /** Dropping transactions keeps the caps above what remains. */
  lemma SublistKeepsCaps(l: ListState, items: NonceMap)
    requires l.Valid()
    requires forall n :: n in items ==> n in l.items && items[n] == l.items[n]
    ensures l.(items := items).Valid()
  {
  }

  lemma DroppingKeepsCaps(l: ListState, k: nat)
    requires l.Valid()
    ensures l.Forward(k).Valid() && l.Cap(k).Valid() && l.Remove(k).list.Valid() && l.TakeReady(k).Valid()
  {
    LowestFacts(l.items, k);
    SublistKeepsCaps(l, l.Forward(k).items);
    SublistKeepsCaps(l, l.Cap(k).items);
    SublistKeepsCaps(l, l.Remove(k).list.items);
    SublistKeepsCaps(l, l.TakeReady(k).items);
  }

  /** Filter lowers the caps to its limits, which bound everything it keeps. */
  lemma FilterKeepsCaps(l: ListState, costLimit: int, gasLimit: nat)
    requires l.Valid()
    ensures l.Filter(costLimit, gasLimit).list.Valid()
  {
    var kept := Reject(l.items, Unpayable(costLimit, gasLimit));
    forall n | n in kept ensures kept[n].Cost() <= costLimit && kept[n].gas <= gasLimit {
      assert !Unpayable(costLimit, gasLimit)(kept[n]);
    }
    var capped := ListState(l.strict, kept, costLimit, gasLimit);
    assert capped.Valid();
    SublistKeepsCaps(capped, l.Filter(costLimit, gasLimit).list.items);
  }

  /** The short circuit never changes the outcome: Filter removes exactly the transactions whose
      cost or gas exceeds its limit and, in strict mode, exactly those above a removed nonce. */
  lemma FilterExact(l: ListState, costLimit: int, gasLimit: nat)
    requires l.Valid()
    ensures var r := l.Filter(costLimit, gasLimit);
            && r.removed == Select(l.items, Unpayable(costLimit, gasLimit))
            && (forall n :: n in r.invalids <==>
                              && l.strict && n in l.items && n !in r.removed
                              && exists m :: m in r.removed && m < n)
            && (forall n :: n in r.list.items <==> n in l.items && n !in r.removed && n !in r.invalids)
            && (forall n :: n in r.list.items ==> r.list.items[n] == l.items[n])
            && (forall n :: n in r.invalids ==> r.invalids[n] == l.items[n])
  {
    var r := l.Filter(costLimit, gasLimit);
    var removed := Select(l.items, Unpayable(costLimit, gasLimit));
    if removed == map[] {
      SortedMap.NothingSelected(l.items, Unpayable(costLimit, gasLimit));
    }
    if l.costcap <= costLimit && l.gascap <= gasLimit {
      assert removed == map[];
    }
  }

  /** The nonces of items are exactly lo, lo + 1, ..., hi - 1. */
  ghost predicate Contiguous(items: NonceMap, lo: nat, hi: nat) {
    lo <= hi && forall n :: n in items <==> lo <= n < hi
  }

  /** In strict mode removing nonce k keeps the nonces below it and invalidates those above. */
  lemma RemoveContiguous(l: ListState, lo: nat, hi: nat, k: nat)
    requires l.strict && Keyed(l.items) && Contiguous(l.items, lo, hi) && k in l.items
    ensures Contiguous(l.Remove(k).list.items, lo, k)
    ensures l.Remove(k).invalids == AtLeast(l.items, k + 1)
  {
  }

  lemma ForwardContiguous(l: ListState, lo: nat, hi: nat, k: nat)
    requires Contiguous(l.items, lo, hi) && lo <= k <= hi
    ensures Contiguous(l.Forward(k).items, k, hi)
  {
  }

  /** In strict mode Filter cuts the list at the lowest unpayable nonce. */
  lemma FilterContiguous(l: ListState, lo: nat, hi: nat, costLimit: int, gasLimit: nat)
    requires l.Valid() && l.strict && Contiguous(l.items, lo, hi)
    ensures var r := l.Filter(costLimit, gasLimit);
            Contiguous(r.list.items, lo, if r.removed == map[] then hi else Min(r.removed.Keys))
  {
    FilterExact(l, costLimit, gasLimit);
    var r := l.Filter(costLimit, gasLimit);
    if r.removed != map[] {
      var lowest := Min(r.removed.Keys);
      forall n ensures n in r.list.items <==> lo <= n < lowest {
        assert lowest in r.removed && (n in r.list.items && lowest < n ==> n in r.invalids);
      }
    }
  }

  lemma {:induction false} CapContiguous(items: NonceMap, lo: nat, hi: nat, k: nat)
    requires Contiguous(items, lo, hi)
    ensures |items| == hi - lo
    ensures Contiguous(Lowest(items, k), lo, if lo + k < hi then lo + k else hi)
    decreases hi
  {
    if lo == hi {
      assert items == map[];
    } else {
      assert hi - 1 in items;
      var top := Max(items.Keys);
      assert top == hi - 1;
      CapContiguous(items - {top}, lo, hi - 1, k);
    }
  }

  /** The list itself: every method moves its value exactly as the corresponding function says. */
  class TxList {
    const strict: bool
    const txs: SortedMap.TxSortedMap
    var costcap: int
    var gascap: nat

    ghost predicate Valid()
      reads this, txs
    {
      txs.Valid() && View().Valid()
    }

    ghost function View(): ListState
      reads this, txs
    {
      ListState(strict, txs.items, costcap, gascap)
    }

    constructor (strict: bool)
      ensures Valid() && View() == EmptyList(strict) && fresh(txs)
    {
      this.strict := strict;
      txs := new SortedMap.TxSortedMap();
      costcap, gascap := 0, 0;
    }

    method Add(tx: Tx, priceBump: nat) returns (inserted: bool, replaced: Option<Tx>)
      requires Valid()
      modifies this, txs
      ensures Valid() && AddResult(inserted, replaced, View()) == old(View()).Add(tx, priceBump)
    {
      AddKeepsCaps(View(), tx, priceBump);
      replaced := txs.Get(tx.nonce);
      if replaced.Some? {
        var threshold := replaced.value.price * (100 + priceBump) / 100;
        if replaced.value.price >= tx.price || tx.price < threshold {
          return false, None;
        }
      }
      txs.Put(tx);
      if costcap < tx.Cost() {
        costcap := tx.Cost();
      }
      if gascap < tx.gas {
        gascap := tx.gas;
      }
      inserted := true;
    }

    method Forward(threshold: nat) returns (removed: seq<Tx>)
      requires Valid()
      modifies txs
      ensures Valid() && View() == old(View()).Forward(threshold)
      ensures removed == Sorted(Below(old(View()).items, threshold))
    {
      DroppingKeepsCaps(View(), threshold);
      removed := txs.Forward(threshold);
    }

    method Filter(costLimit: int, gasLimit: nat) returns (removed: NonceMap, invalids: NonceMap)
      requires Valid()
      modifies this, txs
      ensures Valid() && FilterResult(removed, invalids, View()) == old(View()).Filter(costLimit, gasLimit)
    {
      FilterKeepsCaps(View(), costLimit, gasLimit);
      if costcap <= costLimit && gascap <= gasLimit {
        return map[], map[];
      }
      costcap, gascap := costLimit, gasLimit;
      removed := txs.Filter(Unpayable(costLimit, gasLimit));
      invalids := map[];
      if removed == map[] {
        return;
      }
      if strict {
        invalids := txs.FilterItems(Above(Min(removed.Keys)));
      }
      txs.Reheap();
    }

    method Cap(threshold: nat) returns (drops: seq<Tx>)
      requires Valid()
      modifies txs
      ensures Valid() && View() == old(View()).Cap(threshold)
      ensures drops == Dropped(old(View()).items, threshold)
    {
      DroppingKeepsCaps(View(), threshold);
      drops := txs.Cap(threshold);
    }

    method Remove(tx: Tx) returns (found: bool, invalids: NonceMap)
      requires Valid()
      modifies txs
      ensures Valid() && RemoveResult(found, invalids, View()) == old(View()).Remove(tx.nonce)
    {
      hide SortedMap.TxSortedMap.Valid, Reject, Select;
      DroppingKeepsCaps(View(), tx.nonce);
      invalids := map[];
      found := txs.Remove(tx.nonce);
      assert !found ==> txs.items == old(txs.items);
      if found && strict {
        invalids := txs.Filter(Above(tx.nonce));
      }
    }

    method Ready(start: nat) returns (ready: seq<Tx>)
      requires Valid()
      modifies txs
      ensures Valid() && View() == old(View()).TakeReady(start)
      ensures ready == Sorted(TxTypes.Ready(old(View()).items, start))
    {
      DroppingKeepsCaps(View(), start);
      ready := txs.Ready(start);
    }
  }
}
