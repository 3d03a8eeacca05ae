/** What a new chain head does to the pending list of one account, and exactly when pending
    nonces stay contiguous across it (core/tx_pool.go). */
module Demotion {
  import opened Collections
  import opened TxTypes
  import opened List
  import opened PoolModel
  import opened Promotion

  /** Outdated and unpayable transactions leave; invalidated or gapped ones return to the queue. */
  datatype Demoted = Demoted(olds: NonceMap, drops: NonceMap, invalids: NonceMap, gapped: NonceMap,
                             rest: ListState, list: ListState)

  predicate Gapped(items: NonceMap, nonce: nat) {
    items != map[] && nonce !in items
  }

  function Demote(l: ListState, nonce: nat, balance: int, maxGas: nat): Demoted {
    var r := l.Forward(nonce).Filter(balance, maxGas);
    if Gapped(r.list.items, nonce) then
      Demoted(Below(l.items, nonce), r.removed, r.invalids, r.list.items, r.list, r.list.Cap(0))
    else
      Demoted(Below(l.items, nonce), r.removed, r.invalids, map[], r.list, r.list)
  }

  /** A strict list loses its unpayable transactions and passes on those above them. */
  lemma ShrinksStrictFilter(l: ListState, balance: int, maxGas: nat)
    requires l.Valid() && l.strict
    ensures var r := l.Filter(balance, maxGas);
            Shrinks(l, r.list, r.invalids, Txs(r.removed)) && Part(r.removed, l.items) && Part(r.invalids, l.items)
  {
    hide ListState.Filter;
    FilterKeepsCaps(l, balance, maxGas);
    FilterExact(l, balance, maxGas);
    FilterStrictness(l, balance, maxGas);
    var r := l.Filter(balance, maxGas);
    var gone := Gone(l, r.list.items);
    ValuesHold(gone);
    ValuesHold(r.removed);
    ValuesHold(r.invalids);
    forall tx ensures Holds(gone, tx) && !Holds(r.invalids, tx) <==> Holds(r.removed, tx) {}
    assert Txs(r.removed) == Txs(gone) - Txs(r.invalids);
  }

  lemma FilterStrictness(l: ListState, balance: int, maxGas: nat)
    ensures l.Filter(balance, maxGas).list.strict == l.strict
  {
  }

  lemma DemoteRest(l: ListState, nonce: nat, balance: int, maxGas: nat)
    requires l.Valid() && l.strict
    ensures var dm := Demote(l, nonce, balance, maxGas);
            && Shrinks(l, dm.rest, dm.invalids, Txs(dm.olds) + Txs(dm.drops))
            && Part(dm.olds, l.items) && Part(dm.drops, l.items) && Part(dm.invalids, l.items) && dm.olds.Keys !! dm.drops.Keys
  {
    hide ListState.Filter, Shrinks;
    ShrinksForward(l, nonce);
    ForwardOk(l, nonce);
    var fl := l.Forward(nonce);
    ShrinksStrictFilter(fl, balance, maxGas);
    var r := fl.Filter(balance, maxGas);
    ShrinksTwice(l, fl, r.list, Txs(Below(l.items, nonce)), r.invalids, Txs(r.removed));
  }

  lemma ForwardOk(l: ListState, nonce: nat)
    requires l.Valid()
    ensures l.Forward(nonce).Valid() && l.Forward(nonce).strict == l.strict
  {
    DroppingKeepsCaps(l, nonce);
  }

  lemma ShrinksGap(l: ListState)
    requires l.Valid()
    ensures Shrinks(l, l.Cap(0), l.items, {})
  {
    DroppingKeepsCaps(l, 0);
    LowestFacts(l.items, 0);
    assert l.Cap(0).items == map[];
    assert Gone(l, map[]) == l.items;
  }

  /** Everything the pool needs to know before it demotes an account. */
  lemma DemoteFacts(p: Lists, q: Lists, all: set<Tx>, a: Address, nonce: nat, balance: int, maxGas: nat)
    requires Consistent(p, q, all, {}) && a in p
    ensures var dm := Demote(p[a], nonce, balance, maxGas);
            && Keyed(dm.olds) && Txs(dm.olds) <= all
            && Keyed(dm.drops) && Txs(dm.drops) <= all - Txs(dm.olds)
            && Keyed(dm.invalids) && (forall n :: n in dm.invalids ==> dm.invalids[n].sender == a)
            && Consistent(Store(p, a, dm.rest), q, all - Txs(dm.olds) - Txs(dm.drops), Txs(dm.invalids))
            && Items(Store(p, a, dm.rest), a) == dm.rest.items && Store(p, a, dm.rest) - {a} == p - {a}
            && (dm.rest.items != map[] ==> a in Store(p, a, dm.rest) && Store(p, a, dm.rest)[a] == dm.rest)
  {
    hide Consistent, ListOk, Part, Keyed, Shrinks, ListState.Filter, Txs;
    var l := p[a];
    PendingListOk(p, q, all, a);
    ListOkValid(l, a, true);
    DemoteRest(l, nonce, balance, maxGas);
    var dm := Demote(l, nonce, balance, maxGas);
    PendingPart(p, q, all, {}, a, dm.olds);
    PendingPart(p, q, all, {}, a, dm.drops);
    PendingPart(p, q, all, {}, a, dm.invalids);
    ApartValues(dm.olds, dm.drops);
    ShrinkPending(p, q, all, {}, a, dm.rest, dm.invalids, Txs(dm.olds) + Txs(dm.drops));
    assert {} + Txs(dm.invalids) == Txs(dm.invalids);
    assert all - (Txs(dm.olds) + Txs(dm.drops)) == all - Txs(dm.olds) - Txs(dm.drops);
  }

  /** A list with a gap in front is emptied into the queue. */
  lemma GapFacts(p: Lists, q: Lists, all: set<Tx>, a: Address)
    requires Consistent(p, q, all, {}) && a in p
    ensures Consistent(Store(p, a, p[a].Cap(0)), q, all, Txs(p[a].items))
    ensures Items(Store(p, a, p[a].Cap(0)), a) == p[a].Cap(0).items && Store(p, a, p[a].Cap(0)) - {a} == p - {a}
    ensures Keyed(p[a].items) && forall n :: n in p[a].items ==> p[a].items[n].sender == a
  {
    hide Consistent, Shrinks, Part, Txs;
    PendingListOk(p, q, all, a);
    ShrinksGap(p[a]);
    ShrinkPending(p, q, all, {}, a, p[a].Cap(0), p[a].items, {});
    assert {} + Txs(p[a].items) == Txs(p[a].items);
    assert all - {} == all;
  }

  /** The account's nonces start at lo and have no gap. */
  ghost predicate Gapless(items: NonceMap, lo: nat) {
    exists hi :: Contiguous(items, lo, hi)
  }

  /** When the pending nonces of an account survive a new head without a gap: the chain's nonce did
      not fall back below the pending ones, or nothing was pending, or nothing became ready in
      front of it, or what became ready reaches the old pending nonces, or the first of those can
      no longer be paid for. */
  ghost predicate ResetSafe(p: NonceMap, readies: NonceMap, lo: nat, nonce: nat, balance: int, maxGas: nat) {
    || lo <= nonce
    || p == map[]
    || readies == map[]
    || (0 < lo && lo - 1 in readies)
    || (lo in p && Unpayable(balance, maxGas)(p[lo]))
  }

  /** Nonce n is current and neither it nor a current one below it is unpayable. */
  ghost predicate Kept(items: NonceMap, nonce: nat, n: nat, balance: int, maxGas: nat) {
    n in items && nonce <= n && forall m :: m in items && nonce <= m <= n ==> !Unpayable(balance, maxGas)(items[m])
  }

  /** Demotion keeps the current transactions up to the first unpayable one, or nothing at all when
      the chain's next nonce is missing among them. */
  lemma DemoteKeeps(l: ListState, nonce: nat, balance: int, maxGas: nat)
    requires l.Valid() && l.strict
    ensures var dm := Demote(l, nonce, balance, maxGas);
            && (forall n :: n in dm.rest.items <==> Kept(l.items, nonce, n, balance, maxGas))
            && (dm.list.items == if Gapped(dm.rest.items, nonce) then map[] else dm.rest.items)
  {
    hide ListState.Filter, ListState.Cap, Unpayable, ListState.Valid;
    var fl := l.Forward(nonce);
    ForwardOk(l, nonce);
    FilterExact(fl, balance, maxGas);
    var r := fl.Filter(balance, maxGas);
    CapZero(r.list);
    forall n ensures n in r.list.items <==> Kept(l.items, nonce, n, balance, maxGas) {
      KeptIff(fl, r, nonce, n, balance, maxGas);
      KeptForward(l.items, nonce, n, balance, maxGas);
    }
  }

  /** Every transaction is current and payable, and the chain's next nonce is among them. */
  ghost predicate Executable(items: NonceMap, nonce: nat, balance: int, maxGas: nat) {
    && (forall n :: n in items ==> nonce <= n) && Payable(items, balance, maxGas)
    && (items != map[] ==> nonce in items)
  }

  /** Demotion leaves a gapless payable list that starts at the chain's nonce as it is. */
  lemma DemoteNothing(l: ListState, nonce: nat, hi: nat, balance: int, maxGas: nat)
    requires l.Valid() && l.strict && Contiguous(l.items, nonce, hi) && Payable(l.items, balance, maxGas)
    ensures Demote(l, nonce, balance, maxGas).list.items == l.items
  {
    hide Demote, Unpayable, ListState.Valid;
    DemoteKeeps(l, nonce, balance, maxGas);
    DemoteSame(l, nonce, balance, maxGas);
    var rest := Demote(l, nonce, balance, maxGas).rest.items;
    forall n ensures n in rest <==> n in l.items {
      assert Kept(l.items, nonce, n, balance, maxGas) <==> n in l.items;
    }
    assert rest == l.items;
  }

  /** Whatever demotion leaves pending can be executed on the new state. */
  lemma DemoteExecutable(l: ListState, nonce: nat, balance: int, maxGas: nat)
    requires l.Valid() && l.strict
    ensures Executable(Demote(l, nonce, balance, maxGas).list.items, nonce, balance, maxGas)
  {
    DemoteKeeps(l, nonce, balance, maxGas);
    var dm := Demote(l, nonce, balance, maxGas);
    DemoteSame(l, nonce, balance, maxGas);
    forall n | n in dm.list.items ensures nonce <= n && !Unpayable(balance, maxGas)(dm.list.items[n]) {
      assert Kept(l.items, nonce, n, balance, maxGas);
    }
  }

  lemma DemoteSame(l: ListState, nonce: nat, balance: int, maxGas: nat)
    ensures var rest := Demote(l, nonce, balance, maxGas).rest.items;
            forall n :: n in rest ==> n in l.items && rest[n] == l.items[n]
  {
    hide Unpayable, Above, ListState.Cap;
  }

  /** Cutting a list at its highest nonces leaves it executable. */
  lemma CutExecutable(items: NonceMap, k: nat, nonce: nat, balance: int, maxGas: nat)
    requires Executable(items, nonce, balance, maxGas) && k > 0
    ensures Executable(Lowest(items, k), nonce, balance, maxGas)
  {
    hide Lowest, Unpayable;
    LowestFacts(items, k);
    var low := Lowest(items, k);
    if low != map[] {
      var n :| n in low;
      assert nonce in items && (nonce !in low ==> n < nonce);
    }
  }

  lemma KeptForward(items: NonceMap, nonce: nat, n: nat, balance: int, maxGas: nat)
    ensures Kept(AtLeast(items, nonce), nonce, n, balance, maxGas) <==> Kept(items, nonce, n, balance, maxGas)
  {
    hide Unpayable;
    var f := AtLeast(items, nonce);
    assert forall m :: m in items && nonce <= m ==> m in f && f[m] == items[m];
  }

  lemma KeptIff(l: ListState, r: FilterResult, nonce: nat, n: nat, balance: int, maxGas: nat)
    requires l.strict && r.removed == Select(l.items, Unpayable(balance, maxGas))
    requires n in r.invalids <==> n in l.items && n !in r.removed && exists m :: m in r.removed && m < n
    requires n in r.list.items <==> n in l.items && n !in r.removed && n !in r.invalids
    requires forall m :: m in l.items ==> nonce <= m
    ensures n in r.list.items <==> Kept(l.items, nonce, n, balance, maxGas)
  {
    hide Unpayable;
    if n in l.items && !Kept(l.items, nonce, n, balance, maxGas) {
      var m :| m in l.items && nonce <= m <= n && Unpayable(balance, maxGas)(l.items[m]);
      assert m in r.removed;
    }
  }

  lemma CapZero(l: ListState)
    ensures l.Cap(0).items == map[]
  {
    LowestFacts(l.items, 0);
  }

  lemma DemoteList(l: ListState, nonce: nat, balance: int, maxGas: nat, hi: nat)
    requires l.Valid() && l.strict && nonce <= hi
    requires forall n :: n in l.items && nonce <= n <==> nonce <= n < hi
    ensures Gapless(Demote(l, nonce, balance, maxGas).list.items, nonce)
  {
    hide Demote, Unpayable, ListState.Valid;
    DemoteKeeps(l, nonce, balance, maxGas);
    var dm := Demote(l, nonce, balance, maxGas);
    var cut := FirstUnpayable(l.items, nonce, hi, balance, maxGas);
    assert Contiguous(dm.list.items, nonce, if Gapped(dm.rest.items, nonce) then nonce else cut);
  }

  lemma {:induction false} FirstUnpayable(items: NonceMap, nonce: nat, hi: nat, balance: int, maxGas: nat) returns (cut: nat)
    requires nonce <= hi && forall n :: n in items && nonce <= n <==> nonce <= n < hi
    ensures nonce <= cut <= hi && forall n: nat :: Kept(items, nonce, n, balance, maxGas) <==> nonce <= n < cut
  {
    hide Unpayable;
    cut := nonce;
    while cut < hi && !Unpayable(balance, maxGas)(items[cut])
      invariant nonce <= cut <= hi
      invariant forall m :: nonce <= m < cut ==> !Unpayable(balance, maxGas)(items[m])
    {
      cut := cut + 1;
    }
  }

  /** Nothing can become ready in front of a nonce that is itself pending or already passed. */
  lemma ReadyFacts(l: ListState, nonce: nat, balance: int, maxGas: nat, expected: nat, limit: Option<nat>)
    requires l.Valid() && !l.strict && expected <= nonce
    ensures var ready := Promote(l, nonce, balance, maxGas, expected, limit).readies;
            && (forall n :: n in ready ==> n in l.items && ready[n] == l.items[n] && !Unpayable(balance, maxGas)(ready[n]))
            && Contiguous(ready, nonce, nonce + RunLength(ready, nonce))
  {
    DroppingKeepsCaps(l, nonce);
    FilterLoose(l.Forward(nonce), balance, maxGas);
    var q := Reject(AtLeast(l.items, nonce), Unpayable(balance, maxGas));
    assert Promote(l, nonce, balance, maxGas, expected, limit).readies == Ready(q, expected);
    ReadyRun(q, expected, nonce);
  }

  lemma ReadyRun(q: NonceMap, expected: nat, nonce: nat)
    requires expected <= nonce && forall n :: n in q ==> nonce <= n
    ensures var ready := Ready(q, expected);
            && (forall n :: n in ready ==> n in q && ready[n] == q[n])
            && Contiguous(ready, nonce, nonce + RunLength(ready, nonce))
  {
    var ready := Ready(q, expected);
    RunFacts(ready, nonce);
    if ready != map[] {
      var first := Min(q.Keys);
      assert first in q;
      assert first == nonce;
      RunFacts(q, first);
    }
  }

  /** Promotion with a fresh nonce followed by demotion leaves the pending nonces of an account
      without a gap exactly when the reset is safe for it. */
  lemma ResetContiguity(p: NonceMap, q: ListState, l: ListState, lo: nat, hi: nat,
                        nonce: nat, balance: int, maxGas: nat, expected: nat, limit: Option<nat>)
    requires Contiguous(p, lo, hi) && q.Valid() && !q.strict && p.Keys !! q.items.Keys && expected <= nonce
    requires l.Valid() && l.strict && l.items == p + Promote(q, nonce, balance, maxGas, expected, limit).readies
    ensures var readies := Promote(q, nonce, balance, maxGas, expected, limit).readies;
            Gapless(Demote(l, nonce, balance, maxGas).list.items, nonce) <==> ResetSafe(p, readies, lo, nonce, balance, maxGas)
  {
    hide Promote, Demote;
    ReadyFacts(q, nonce, balance, maxGas, expected, limit);
    var readies := Promote(q, nonce, balance, maxGas, expected, limit).readies;
    ResetCases(p, readies, l, lo, hi, nonce, balance, maxGas);
  }

  lemma ResetCases(p: NonceMap, readies: NonceMap, l: ListState, lo: nat, hi: nat, nonce: nat, balance: int, maxGas: nat)
    requires Contiguous(p, lo, hi) && p.Keys !! readies.Keys && Contiguous(readies, nonce, nonce + RunLength(readies, nonce))
    requires forall n :: n in readies ==> !Unpayable(balance, maxGas)(readies[n])
    requires l.Valid() && l.strict && l.items == p + readies
    ensures Gapless(Demote(l, nonce, balance, maxGas).list.items, nonce) <==> ResetSafe(p, readies, lo, nonce, balance, maxGas)
  {
    hide Demote, RunLength;
    var end := nonce + RunLength(readies, nonce);
    if lo <= nonce {
      assert nonce < hi ==> nonce in p && nonce !in readies;
      DemoteList(l, nonce, balance, maxGas, if nonce < hi then hi else end);
    } else if p == map[] {
      DemoteList(l, nonce, balance, maxGas, end);
    } else if readies == map[] {
      DemoteBehind(p, l, lo, nonce, balance, maxGas);
    } else {
      assert lo in p && lo !in readies && nonce in readies;
      if lo - 1 in readies {
        DemoteList(l, nonce, balance, maxGas, hi);
      } else {
        DemoteGap(p, readies, l, lo, hi, nonce, end, balance, maxGas);
      }
    }
  }

  /** With nothing ready in front, a list that starts behind the chain's nonce is gapped. */
  lemma DemoteBehind(p: NonceMap, l: ListState, lo: nat, nonce: nat, balance: int, maxGas: nat)
    requires l.Valid() && l.strict && l.items == p && nonce < lo && forall n :: n in p ==> lo <= n
    ensures Gapless(Demote(l, nonce, balance, maxGas).list.items, nonce)
  {
    DemoteKeeps(l, nonce, balance, maxGas);
    assert Contiguous(Demote(l, nonce, balance, maxGas).list.items, nonce, nonce);
  }

  /** A ready run that stops short of the old pending nonces leaves a gap, unless the first of
      those is dropped. */
  lemma DemoteGap(p: NonceMap, readies: NonceMap, l: ListState, lo: nat, hi: nat, nonce: nat, end: nat, balance: int, maxGas: nat)
    requires Contiguous(p, lo, hi) && Contiguous(readies, nonce, end) && nonce < end < lo < hi
    requires forall n :: n in readies ==> !Unpayable(balance, maxGas)(readies[n])
    requires l.Valid() && l.strict && l.items == p + readies
    ensures Gapless(Demote(l, nonce, balance, maxGas).list.items, nonce) <==> Unpayable(balance, maxGas)(p[lo])
  {
    hide Demote, Unpayable, ListState.Valid;
    DemoteKeeps(l, nonce, balance, maxGas);
    var rest := Demote(l, nonce, balance, maxGas).rest.items;
    RunKept(readies, l.items, nonce, end, balance, maxGas);
    assert nonce in rest;
    if Unpayable(balance, maxGas)(p[lo]) {
      GapClosed(l.items, rest, nonce, end, lo, balance, maxGas);
    } else {
      assert end !in rest;
      assert Kept(l.items, nonce, lo, balance, maxGas) by { LoKept(p, readies, l.items, lo, hi, nonce, balance, maxGas); }
      assert lo in rest;
    }
  }

  /** Everything in the ready run is kept. */
  lemma RunKept(readies: NonceMap, items: NonceMap, nonce: nat, end: nat, balance: int, maxGas: nat)
    requires Contiguous(readies, nonce, end) && Part(readies, items)
    requires forall n :: n in readies ==> !Unpayable(balance, maxGas)(readies[n])
    ensures forall n: nat :: nonce <= n < end ==> Kept(items, nonce, n, balance, maxGas)
  {
    hide Unpayable;
    forall n: nat | nonce <= n < end ensures Kept(items, nonce, n, balance, maxGas) {
      forall m | m in items && nonce <= m <= n ensures !Unpayable(balance, maxGas)(items[m]) {
        assert m in readies;
      }
    }
  }

  lemma GapClosed(items: NonceMap, rest: NonceMap, nonce: nat, end: nat, lo: nat, balance: int, maxGas: nat)
    requires forall n :: n in rest <==> Kept(items, nonce, n, balance, maxGas)
    requires forall n: nat :: nonce <= n < end ==> Kept(items, nonce, n, balance, maxGas)
    requires nonce < end < lo && lo in items && Unpayable(balance, maxGas)(items[lo])
    requires forall n :: end <= n < lo ==> n !in items
    ensures Contiguous(rest, nonce, end)
  {
    hide Unpayable;
  }

  lemma LoKept(p: NonceMap, readies: NonceMap, items: NonceMap, lo: nat, hi: nat, nonce: nat, balance: int, maxGas: nat)
    requires items == p + readies && Contiguous(p, lo, hi) && nonce < lo < hi && lo !in readies
    requires forall n :: n in readies ==> !Unpayable(balance, maxGas)(readies[n])
    requires !Unpayable(balance, maxGas)(p[lo])
    ensures Kept(items, nonce, lo, balance, maxGas)
  {
    hide Unpayable;
    forall m | m in items && nonce <= m <= lo ensures !Unpayable(balance, maxGas)(items[m]) {
      if m in readies { assert items[m] == readies[m]; } else { assert m == lo; }
    }
  }

  /** A reset can indeed leave a gap: nonce 8 is pending, the chain falls back to nonce 5, and only
      the transaction with nonce 5 comes back. */
  lemma ResetGapExample()
    ensures var tx8 := Tx(1, 0, 8, 1, 1, 0, 1, false, []);
            var tx5 := Tx(2, 0, 5, 1, 1, 0, 1, false, []);
            var p: NonceMap := map[8 := tx8];
            var q := ListState(false, map[5 := tx5], 1, 1);
            var l := ListState(true, map[8 := tx8, 5 := tx5], 1, 1);
            && Contiguous(p, 8, 9) && q.Valid() && l.Valid()
            && l.items == p + Promote(q, 5, 100, 100, 5, None).readies
            && !Gapless(Demote(l, 5, 100, 100).list.items, 5)
  {
    hide Promote, Demote;
    var tx8 := Tx(1, 0, 8, 1, 1, 0, 1, false, []);
    var tx5 := Tx(2, 0, 5, 1, 1, 0, 1, false, []);
    var p: NonceMap := map[8 := tx8];
    var q := ListState(false, map[5 := tx5], 1, 1);
    var l := ListState(true, map[8 := tx8, 5 := tx5], 1, 1);
    assert q.Valid() && l.Valid();
    OnlyOneReady(tx5, q);
    assert l.items == p + map[5 := tx5];
    assert 8 in p && 5 in l.items;
    ResetContiguity(p, q, l, 8, 9, 5, 100, 100, 5, None);
    assert !Unpayable(100, 100)(tx8);
  }

  lemma OnlyOneReady(tx: Tx, q: ListState)
    requires tx.nonce == 5 && tx.Cost() == 1 && tx.gas == 1 && q == ListState(false, map[5 := tx], 1, 1)
    ensures Promote(q, 5, 100, 100, 5, None).readies == map[5 := tx]
  {
    hide Select, Reject;
    assert q.Forward(5) == q;
    var items: NonceMap := map[5 := tx];
    assert 5 in items;
    assert Min(items.Keys) == 5;
    RunFacts(items, 5);
    assert Run(items, 5) == items;
  }

  /** What became ready in front of a list stays pending. */
  lemma ReadyStays(q: ListState, l: ListState, nonce: nat, balance: int, maxGas: nat, expected: nat, limit: Option<nat>)
    requires q.Valid() && !q.strict && expected <= nonce && l.Valid() && l.strict
    requires forall n :: n in Promote(q, nonce, balance, maxGas, expected, limit).readies ==>
                           n in l.items && l.items[n] == Promote(q, nonce, balance, maxGas, expected, limit).readies[n]
    ensures Promote(q, nonce, balance, maxGas, expected, limit).readies != map[] ==> Demote(l, nonce, balance, maxGas).list.items != map[]
  {
    hide Promote, Demote, ListState.Valid, Unpayable;
    ReadyFacts(q, nonce, balance, maxGas, expected, limit);
    DemoteKeeps(l, nonce, balance, maxGas);
    var readies := Promote(q, nonce, balance, maxGas, expected, limit).readies;
    if readies != map[] {
      var n :| n in readies;
      assert nonce in readies;
      assert Kept(l.items, nonce, nonce, balance, maxGas);
    }
  }

  /** An account that comes out of a reset with nothing pending had nothing made ready. */
  lemma RebuiltEmpty(p0: Lists, q0: Lists, all: set<Tx>, p1: Lists, b: Address,
                     nonce: nat, balance: int, maxGas: nat, expected: nat, limit: Option<nat>, final: NonceMap)
    requires Consistent(p0, q0, all, {}) && ListsOk(p1, true) && expected <= nonce
    requires Items(p1, b) == Items(p0, b) + Promote(ListOf(q0, b, false), nonce, balance, maxGas, expected, limit).readies
    requires final == (if b in p1 then Demote(p1[b], nonce, balance, maxGas).list.items else map[]) && final == map[]
    ensures Promote(ListOf(q0, b, false), nonce, balance, maxGas, expected, limit).readies == map[]
  {
    hide Promote, Demote, Consistent;
    var q := ListOf(q0, b, false);
    if b in q0 {
      QueueListOk(p0, q0, all, b);
    }
    if b in p1 {
      ReadyStays(q, p1[b], nonce, balance, maxGas, expected, limit);
    } else {
      var readies := Promote(q, nonce, balance, maxGas, expected, limit).readies;
      assert forall n :: n in readies ==> n in Items(p0, b) + readies;
    }
  }

  /** An account whose virtual nonce is below the chain's, with nothing but older nonces pending,
      comes out of a reset with nothing pending. */
  lemma RebuiltBehind(p0: Lists, q0: Lists, all: set<Tx>, p1: Lists, b: Address,
                      nonce: nat, balance: int, maxGas: nat, expected: nat, limit: Option<nat>, final: NonceMap)
    requires Consistent(p0, q0, all, {}) && ListsOk(p1, true) && expected < nonce && forall n :: n in Items(p0, b) ==> n < nonce
    requires Items(p1, b) == Items(p0, b) + Promote(ListOf(q0, b, false), nonce, balance, maxGas, expected, limit).readies
    requires final == if b in p1 then Demote(p1[b], nonce, balance, maxGas).list.items else map[]
    ensures final == map[]
  {
    hide Promote, Demote, Consistent;
    if b in q0 {
      QueueListOk(p0, q0, all, b);
    }
    PromoteBehind(ListOf(q0, b, false), nonce, balance, maxGas, expected, limit);
    if b in p1 {
      DemoteExecutable(p1[b], nonce, balance, maxGas);
      DemoteKeeps(p1[b], nonce, balance, maxGas);
    }
  }

  /** The virtual nonce ends an account's interval exactly when the list is gapless and, with nothing
      pending, the nonce is the chain's. */
  lemma SteadyIff(items: NonceMap, nonce: nat, virtual: nat)
    requires items != map[] ==> virtual == Max(items.Keys) + 1
    ensures Contiguous(items, nonce, virtual) <==> Gapless(items, nonce) && (items != map[] || virtual == nonce)
  {
    if items == map[] {
      if Contiguous(items, nonce, virtual) {
        assert nonce < virtual ==> nonce in items;
      }
    } else if Gapless(items, nonce) {
      var hi: nat :| Contiguous(items, nonce, hi);
      var top := Max(items.Keys);
      assert top in items && top < hi;
      assert hi - 1 in items;
    }
  }

  lemma CutGapless(items: NonceMap, k: nat, lo: nat)
    requires Gapless(items, lo)
    ensures Gapless(Lowest(items, k), lo)
  {
    hide Contiguous, Lowest;
    var hi: nat :| Contiguous(items, lo, hi);
    CapContiguous(items, lo, hi, k);
  }

  /** The reset theorem for one account of the pool. */
  lemma RebuiltGap(p0: Lists, q0: Lists, all: set<Tx>, p1: Lists, b: Address, lo: nat, hi: nat,
                  nonce: nat, balance: int, maxGas: nat, expected: nat, limit: Option<nat>, final: NonceMap)
    requires Consistent(p0, q0, all, {}) && ListsOk(p1, true) && expected <= nonce && Contiguous(Items(p0, b), lo, hi)
    requires Items(p1, b) == Items(p0, b) + Promote(ListOf(q0, b, false), nonce, balance, maxGas, expected, limit).readies
    requires final == if b in p1 then Demote(p1[b], nonce, balance, maxGas).list.items else map[]
    ensures Gapless(final, nonce) <==>
            ResetSafe(Items(p0, b), Promote(ListOf(q0, b, false), nonce, balance, maxGas, expected, limit).readies,
              lo, nonce, balance, maxGas)
  {
    hide Promote, Demote, Gapless, Contiguous, Consistent;
    var q := ListOf(q0, b, false);
    if b in q0 {
      QueueListOk(p0, q0, all, b);
    }
    ItemsApart(p0, q0, all, b);
    if b in p1 {
      ResetContiguity(Items(p0, b), q, p1[b], lo, hi, nonce, balance, maxGas, expected, limit);
    } else {
      EmptyGapless(nonce);
      var readies := Promote(q, nonce, balance, maxGas, expected, limit).readies;
      assert forall n :: n in Items(p0, b) ==> n in Items(p0, b) + readies;
    }
  }

  lemma EmptyGapless(nonce: nat)
    ensures Gapless(map[], nonce)
  {
    var none: NonceMap := map[];
    assert Contiguous(none, nonce, nonce);
  }
}
