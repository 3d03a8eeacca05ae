/** What promoting does to the queue of one account, and why it keeps pending nonces contiguous
    (core/tx_pool.go). */
module Promotion {
  import opened Collections
  import opened TxTypes
  import opened List
  import opened PoolModel

  /** Outdated, unpayable and over-limit transactions leave; the ready run moves to pending. */
  datatype Promoted = Promoted(forwards: NonceMap, drops: NonceMap, readies: NonceMap, caps: NonceMap,
                               rest: ListState, list: ListState)

  function Promote(l: ListState, nonce: nat, balance: int, maxGas: nat, expected: nat, limit: Option<nat>): Promoted {
    var r := l.Forward(nonce).Filter(balance, maxGas);
    var rest := r.list.TakeReady(expected);
    var list := if limit.Some? then rest.Cap(limit.value) else rest;
    Promoted(Below(l.items, nonce), r.removed, Ready(r.list.items, expected), Gone(rest, list.items), rest, list)
  }

  /** A queued list in loose mode loses exactly the unpayable transactions. */
  lemma FilterLoose(l: ListState, balance: int, maxGas: nat)
    requires l.Valid() && !l.strict
    ensures var r := l.Filter(balance, maxGas);
            && r.list.Valid() && !r.list.strict && r.invalids == map[]
            && r.removed == Select(l.items, Unpayable(balance, maxGas))
            && r.list.items == Reject(l.items, Unpayable(balance, maxGas))
  {
    FilterKeepsCaps(l, balance, maxGas);
    FilterExact(l, balance, maxGas);
    var r := l.Filter(balance, maxGas);
    assert r.list.items == Reject(l.items, Unpayable(balance, maxGas));
  }

  /** Shrinking in two steps takes out what either step does. */
  lemma ShrinksTwice(l: ListState, l1: ListState, l2: ListState, out1: set<Tx>, kept: NonceMap, out2: set<Tx>)
    requires l.Valid() && Shrinks(l, l1, map[], out1) && Shrinks(l1, l2, kept, out2)
    ensures Shrinks(l, l2, kept, out1 + out2)
  {
    var g1, g2, g := Gone(l, l1.items), Gone(l1, l2.items), Gone(l, l2.items);
    ValuesHold(g1);
    ValuesHold(g2);
    ValuesHold(g);
    ValuesHold(kept);
    forall tx ensures Holds(g, tx) <==> Holds(g1, tx) || Holds(g2, tx) {}
    forall tx ensures tx in out1 + out2 <==> tx in Txs(g) - Txs(kept) {}
  }

  lemma ShrinksForward(l: ListState, nonce: nat)
    requires l.Valid()
    ensures Shrinks(l, l.Forward(nonce), map[], Txs(Below(l.items, nonce)))
  {
    DroppingKeepsCaps(l, nonce);
    assert Gone(l, AtLeast(l.items, nonce)) == Below(l.items, nonce);
  }

  lemma ShrinksFilter(l: ListState, balance: int, maxGas: nat)
    requires l.Valid() && !l.strict
    ensures var r := l.Filter(balance, maxGas); Shrinks(l, r.list, map[], Txs(r.removed))
  {
    FilterLoose(l, balance, maxGas);
    var f := Unpayable(balance, maxGas);
    assert Gone(l, Reject(l.items, f)) == Select(l.items, f);
  }

  lemma ShrinksReady(l: ListState, expected: nat)
    requires l.Valid()
    ensures Shrinks(l, l.TakeReady(expected), Ready(l.items, expected), {})
  {
    DroppingKeepsCaps(l, expected);
    assert Gone(l, l.TakeReady(expected).items) == Ready(l.items, expected);
  }

  /** Up to the limit: what leaves the list is outdated or unpayable, or ready. */
  lemma PromoteRest(l: ListState, nonce: nat, balance: int, maxGas: nat, expected: nat, limit: Option<nat>)
    requires l.Valid() && !l.strict
    ensures var pr := Promote(l, nonce, balance, maxGas, expected, limit);
            Shrinks(l, pr.rest, pr.readies, Txs(pr.forwards) + Txs(pr.drops))
  {
    var fl := l.Forward(nonce);
    ShrinksForward(l, nonce);
    ShrinksFilter(fl, balance, maxGas);
    var r := fl.Filter(balance, maxGas);
    ShrinksReady(r.list, expected);
    ShrinksTwice(fl, r.list, r.list.TakeReady(expected), Txs(r.removed), Ready(r.list.items, expected), {});
    ShrinksTwice(l, fl, r.list.TakeReady(expected), Txs(Below(l.items, nonce)), Ready(r.list.items, expected), Txs(r.removed) + {});
    assert Txs(Below(l.items, nonce)) + (Txs(r.removed) + {}) == Txs(Below(l.items, nonce)) + Txs(r.removed);
  }

  lemma ShrinksCap(l: ListState, k: nat)
    requires l.Valid()
    ensures Shrinks(l, l.Cap(k), map[], Txs(Gone(l, l.Cap(k).items))) && Part(Gone(l, l.Cap(k).items), l.items)
  {
    DroppingKeepsCaps(l, k);
    LowestFacts(l.items, k);
    var none: NonceMap := map[];
    assert Txs(none) == {};
  }

  /** The ready run continues the pending nonces exactly where the virtual nonce says. */
  lemma PromoteContiguous(p: NonceMap, q: NonceMap, lo: nat, hi: nat)
    requires Contiguous(p, lo, hi) && p.Keys !! q.Keys
    requires forall n :: n in q ==> lo <= n
    ensures var ready := Ready(q, hi);
            Contiguous(p + ready, lo, if ready == map[] then hi else Max(ready.Keys) + 1)
  {
    var ready := Ready(q, hi);
    if ready != map[] {
      var first := Min(q.Keys);
      assert first in q && first !in p && first == hi;
      RunFacts(q, first);
      var k := RunLength(q, first);
      assert forall n :: n in ready <==> hi <= n < hi + k;
      assert k > 0 by { var n :| n in ready; }
      assert hi + k - 1 in ready;
      assert Max(ready.Keys) == hi + k - 1;
    } else {
      assert p + ready == p;
    }
  }

  /** A floating transaction always finds its pending place free. */
  lemma PromoteFloating(p: Lists, q: Lists, all: set<Tx>, floating: set<Tx>, tx: Tx, bump: nat)
    requires Consistent(p, q, all, floating) && tx in floating
    ensures var add := ListOf(p, tx.sender, true).Add(tx, bump);
            && tx in all && add.inserted && add.replaced == None
            && var p' := p[tx.sender := add.list];
            && Consistent(p', q, all, floating - {tx})
            && p' - {tx.sender} == p - {tx.sender}
            && Items(p', tx.sender) == Items(p, tx.sender)[tx.nonce := tx]
  {
    FloatingFits(p, q, all, floating, tx);
    Grow(p, q, true, all, floating, tx, bump);
    assert all - AsSet(None) + {tx} == all;
  }

  /** The three parts that leave a queue before the limit applies are parts of it, apart from each other. */
  lemma PromoteParts(l: ListState, nonce: nat, balance: int, maxGas: nat, expected: nat, limit: Option<nat>)
    requires l.Valid() && !l.strict
    ensures var pr := Promote(l, nonce, balance, maxGas, expected, limit);
            && Part(pr.forwards, l.items) && Part(pr.drops, l.items) && Part(pr.readies, l.items)
            && pr.forwards.Keys !! pr.drops.Keys
            && (forall n :: n in pr.readies ==> n in l.items && nonce <= n)
  {
    DroppingKeepsCaps(l, nonce);
    FilterLoose(l.Forward(nonce), balance, maxGas);
  }

  /** Nothing is ready for a virtual nonce below the chain's. */
  lemma PromoteBehind(l: ListState, nonce: nat, balance: int, maxGas: nat, expected: nat, limit: Option<nat>)
    requires l.Valid() && !l.strict && expected < nonce
    ensures Promote(l, nonce, balance, maxGas, expected, limit).readies == map[]
  {
    DroppingKeepsCaps(l, nonce);
    FilterLoose(l.Forward(nonce), balance, maxGas);
    var items := l.Forward(nonce).Filter(balance, maxGas).list.items;
    if items != map[] {
      assert Min(items.Keys) in items;
    }
  }

  /** The chain's next nonce is promoted if it is queued and payable. */
  lemma PromoteNext(l: ListState, nonce: nat, balance: int, maxGas: nat, limit: Option<nat>)
    requires l.Valid() && !l.strict && nonce in l.items && !Unpayable(balance, maxGas)(l.items[nonce])
    ensures var readies := Promote(l, nonce, balance, maxGas, nonce, limit).readies;
            nonce in readies && readies[nonce] == l.items[nonce]
  {
    hide ListState.Valid, ListState.Filter, ListState.TakeReady, ListState.Cap, Unpayable, Ready;
    DroppingKeepsCaps(l, nonce);
    FilterLoose(l.Forward(nonce), balance, maxGas);
    ReadyFirst(Reject(AtLeast(l.items, nonce), Unpayable(balance, maxGas)), nonce);
  }

  lemma ReadyFirst(items: NonceMap, nonce: nat)
    requires nonce in items && forall n :: n in items ==> nonce <= n
    ensures nonce in Ready(items, nonce) && Ready(items, nonce)[nonce] == items[nonce]
  {
    assert Min(items.Keys) in items;
    RunFacts(items, nonce);
  }

  lemma PromoteNothing(nonce: nat, balance: int, maxGas: nat, expected: nat, limit: Option<nat>)
    ensures var pr := Promote(EmptyList(false), nonce, balance, maxGas, expected, limit);
            pr.readies == map[] && pr.list.items == map[]
  {
    var l := EmptyList(false);
    DroppingKeepsCaps(l, nonce);
    FilterLoose(l.Forward(nonce), balance, maxGas);
    assert l.Forward(nonce).Filter(balance, maxGas).list.items == map[];
  }

  /** Promotion keeps the pending nonces of an account contiguous. */
  lemma PromoteKeepsContiguity(p: NonceMap, l: ListState, nonce: nat, balance: int, maxGas: nat, expected: nat, limit: Option<nat>)
    requires l.Valid() && !l.strict && p.Keys !! l.items.Keys && Contiguous(p, nonce, expected)
    ensures var ready := Promote(l, nonce, balance, maxGas, expected, limit).readies;
            Contiguous(p + ready, nonce, if ready == map[] then expected else Max(ready.Keys) + 1)
  {
    DroppingKeepsCaps(l, nonce);
    var fl := l.Forward(nonce);
    FilterLoose(fl, balance, maxGas);
    PromoteContiguous(p, fl.Filter(balance, maxGas).list.items, nonce, expected);
  }

  /** Everything the pool needs to know before it splits a queue. */
  lemma SplitFacts(p: Lists, q: Lists, all: set<Tx>, a: Address,
                   nonce: nat, balance: int, maxGas: nat, expected: nat, limit: Option<nat>)
    requires Consistent(p, q, all, {}) && a in q
    ensures var pr := Promote(q[a], nonce, balance, maxGas, expected, limit);
            var r := q[a].Forward(nonce).Filter(balance, maxGas);
            && pr.forwards == Below(q[a].items, nonce) && pr.drops == r.removed
            && pr.readies == Ready(r.list.items, expected) && pr.rest == r.list.TakeReady(expected)
            && Keyed(pr.forwards) && Txs(pr.forwards) <= all
            && Keyed(pr.drops) && Txs(pr.drops) <= all - Txs(pr.forwards)
            && Keyed(pr.readies) && (forall n :: n in pr.readies ==> pr.readies[n].sender == a)
            && pr.rest.Valid()
            && Consistent(p, Store(q, a, pr.rest), all - Txs(pr.forwards) - Txs(pr.drops), Txs(pr.readies))
            && Items(Store(q, a, pr.rest), a) == pr.rest.items && Store(q, a, pr.rest) - {a} == q - {a}
            && (if pr.rest.items == map[] then a !in Store(q, a, pr.rest)
                else a in Store(q, a, pr.rest) && Store(q, a, pr.rest)[a] == pr.rest)
            && Store(q, a, pr.rest).Keys <= q.Keys
  {
    hide Consistent, ListOk, Part, Keyed, Shrinks, ListState.Valid, Txs, Below, Ready,
         ListState.Forward, ListState.Filter, ListState.TakeReady, ListState.Cap;
    var l := q[a];
    var pr := Promote(l, nonce, balance, maxGas, expected, limit);
    QueueListOk(p, q, all, a);
    ListOkValid(l, a, false);
    PromoteParts(l, nonce, balance, maxGas, expected, limit);
    PromoteRest(l, nonce, balance, maxGas, expected, limit);
    ShrinksValid(l, pr.rest, pr.readies, Txs(pr.forwards) + Txs(pr.drops));
    QueuedPart(p, q, all, {}, a, pr.forwards);
    QueuedPart(p, q, all, {}, a, pr.drops);
    QueuedPart(p, q, all, {}, a, pr.readies);
    ApartValues(pr.forwards, pr.drops);
    ShrinkQueue(p, q, all, {}, a, pr.rest, pr.readies, Txs(pr.forwards) + Txs(pr.drops));
    assert {} + Txs(pr.readies) == Txs(pr.readies);
    assert all - (Txs(pr.forwards) + Txs(pr.drops)) == all - Txs(pr.forwards) - Txs(pr.drops);
  }

  /** Everything the pool needs to know before it caps a queue. */
  lemma CapFacts(p: Lists, q: Lists, all: set<Tx>, a: Address, k: nat)
    requires Consistent(p, q, all, {}) && a in q
    ensures var l := q[a].Cap(k); var caps := Gone(q[a], l.items);
            && Keyed(caps) && Txs(caps) <= all
            && Consistent(p, Store(q, a, l), all - Txs(caps), {})
            && Items(Store(q, a, l), a) == l.items && Store(q, a, l) - {a} == q - {a}
            && Store(q, a, l).Keys <= q.Keys
  {
    hide Consistent, Part, Keyed, Shrinks, Txs;
    var none: NonceMap := map[];
    NoTxs();
    QueueListOk(p, q, all, a);
    ShrinksCap(q[a], k);
    var l := q[a].Cap(k);
    var caps := Gone(q[a], l.items);
    QueuedPart(p, q, all, {}, a, caps);
    ShrinkQueue(p, q, all, {}, a, l, none, Txs(caps));
    assert {} + Txs(none) == {};
  }

  lemma ItemsAbsent(m: Lists, a: Address, k: nat)
    ensures a !in m ==> Items(m, a) == map[] && Lowest(Items(m, a), k) == map[]
    ensures a in m ==> Items(m, a) == m[a].items && m[a].Cap(k).items == Lowest(m[a].items, k)
  {
  }

  lemma PromoteListItems(l: ListState, nonce: nat, balance: int, maxGas: nat, expected: nat, limit: Option<nat>)
    ensures var pr := Promote(l, nonce, balance, maxGas, expected, limit);
            pr.list.items == if limit.Some? then Lowest(pr.rest.items, limit.value) else pr.rest.items
  {
  }

  lemma PromoteAbsent(q: Lists, a: Address, nonce: nat, balance: int, maxGas: nat, expected: nat, limit: Option<nat>, items: NonceMap)
    ensures a !in q ==>
              var pr := Promote(ListOf(q, a, false), nonce, balance, maxGas, expected, limit);
              pr.readies == map[] && items + pr.readies == items && Items(q, a) == pr.list.items
  {
    PromoteNothing(nonce, balance, maxGas, expected, limit);
  }

  lemma ListFrame(m: Lists, m': Lists, a: Address)
    requires m' - {a} == m - {a}
    ensures forall b, strict :: b != a ==> ListOf(m', b, strict) == ListOf(m, b, strict)
    ensures forall b :: b != a ==> Items(m', b) == Items(m, b)
  {
    SameElsewhere(m, m', a);
  }

  lemma AccountContiguity(p: Lists, q: Lists, all: set<Tx>, a: Address,
                          nonce: nat, balance: int, maxGas: nat, expected: nat, limit: Option<nat>)
    requires Consistent(p, q, all, {}) && Contiguous(Items(p, a), nonce, expected)
    ensures var ready := Promote(ListOf(q, a, false), nonce, balance, maxGas, expected, limit).readies;
            Contiguous(Items(p, a) + ready, nonce, if ready == map[] then expected else Max(ready.Keys) + 1)
  {
    hide Contiguous, Promote;
    ItemsApart(p, q, all, a);
    if a in q {
      QueueListOk(p, q, all, a);
    }
    PromoteKeepsContiguity(Items(p, a), ListOf(q, a, false), nonce, balance, maxGas, expected, limit);
  }

  /** What promotion makes ready can be paid for, so payable pending transactions stay payable. */
  lemma AccountPayable(p: Lists, q: Lists, all: set<Tx>, a: Address,
                       nonce: nat, balance: int, maxGas: nat, expected: nat, limit: Option<nat>)
    requires Consistent(p, q, all, {}) && Payable(Items(p, a), balance, maxGas)
    ensures Payable(Items(p, a) + Promote(ListOf(q, a, false), nonce, balance, maxGas, expected, limit).readies, balance, maxGas)
  {
    hide Consistent, Payable, Promote;
    if a in q {
      QueueListOk(p, q, all, a);
      PromotePayable(q[a], nonce, balance, maxGas, expected, limit);
      PayableBoth(Items(p, a), Promote(q[a], nonce, balance, maxGas, expected, limit).readies, balance, maxGas);
    } else {
      PromoteAbsent(q, a, nonce, balance, maxGas, expected, limit, Items(p, a));
    }
  }

  lemma PromotePayable(l: ListState, nonce: nat, balance: int, maxGas: nat, expected: nat, limit: Option<nat>)
    requires l.Valid() && !l.strict
    ensures Payable(Promote(l, nonce, balance, maxGas, expected, limit).readies, balance, maxGas)
  {
    DroppingKeepsCaps(l, nonce);
    FilterLoose(l.Forward(nonce), balance, maxGas);
    PayableReady(AtLeast(l.items, nonce), expected, balance, maxGas);
  }

  lemma PayableReady(items: NonceMap, expected: nat, balance: int, maxGas: nat)
    ensures Payable(Ready(Reject(items, Unpayable(balance, maxGas)), expected), balance, maxGas)
  {
  }
}
