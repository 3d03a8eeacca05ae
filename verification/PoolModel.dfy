/** What it means for the pending lists, the queued lists and the lookup of a transaction pool to
    agree, and how the elementary moves of the pool keep that agreement. */
module PoolModel {
  import opened Collections
  import opened TxTypes
  import opened List

  type Lists = map<Address, ListState>

  function ListOf(m: Lists, a: Address, strict: bool): ListState {
    if a in m then m[a] else EmptyList(strict)
  }

  function Items(m: Lists, a: Address): NonceMap {
    if a in m then m[a].items else map[]
  }

  /** Puts a list back, deleting the account's entry when the list is empty. */
  function Store(m: Lists, a: Address, l: ListState): Lists {
    if l.items == map[] then m - {a} else m[a := l]
  }

  ghost predicate Has(m: Lists, tx: Tx) {
    Holds(Items(m, tx.sender), tx)
  }

  /** No list is empty, every list is of the right kind and holds its own account's transactions. */
  ghost predicate ListOk(l: ListState, a: Address, strict: bool) {
    && l.Valid() && l.strict == strict && l.items != map[]
    && forall n :: n in l.items ==> l.items[n].sender == a
  }

  ghost predicate ListsOk(m: Lists, strict: bool) {
    forall a :: a in m ==> ListOk(m[a], a, strict)
  }

  ghost predicate Apart(p: Lists, q: Lists) {
    forall a :: Items(p, a).Keys !! Items(q, a).Keys
  }

  /** Transactions that are in neither list for the moment, with nonces no list uses. */
  ghost predicate Afloat(p: Lists, q: Lists, floating: set<Tx>) {
    && (forall tx :: tx in floating ==> tx.nonce !in Items(p, tx.sender) && tx.nonce !in Items(q, tx.sender))
    && (forall t, u :: t in floating && u in floating && t.sender == u.sender && t.nonce == u.nonce ==> t == u)
  }

  /** The lookup is exactly the union of both kinds of lists and the floating transactions, and
      every account uses each nonce at most once across them. */
  ghost predicate Agree(m: Lists, o: Lists, all: set<Tx>, floating: set<Tx>) {
    && Apart(m, o) && Afloat(m, o, floating)
    && forall tx :: tx in all <==> Has(m, tx) || Has(o, tx) || tx in floating
  }

  ghost predicate Consistent(p: Lists, q: Lists, all: set<Tx>, floating: set<Tx>) {
    ListsOk(p, true) && ListsOk(q, false) && Agree(p, q, all, floating)
  }

  lemma AgreeSymmetric(m: Lists, o: Lists, all: set<Tx>, floating: set<Tx>)
    ensures Agree(m, o, all, floating) <==> Agree(o, m, all, floating)
  {
  }

  /** What leaves a list when it shrinks to the given items. */
  function Gone(l: ListState, items: NonceMap): NonceMap {
    map n | n in l.items && n !in items :: l.items[n]
  }

  ghost predicate Part(some: NonceMap, items: NonceMap) {
    forall n :: n in some ==> n in items && some[n] == items[n]
  }

  lemma StoreItems(m: Lists, a: Address, l: ListState)
    ensures forall b :: Items(Store(m, a, l), b) == if b == a then l.items else Items(m, b)
    ensures Store(m, a, l) - {a} == m - {a}
  {
  }

  /** A list shrinks: some of what leaves it starts floating, the rest leaves the pool. */
  lemma Shrink(m: Lists, o: Lists, strict: bool, all: set<Tx>, floating: set<Tx>, a: Address, l: ListState, kept: NonceMap)
    requires ListsOk(m, strict) && Agree(m, o, all, floating) && a in m
    requires l.Valid() && l.strict == strict && Part(l.items, m[a].items)
    requires Part(kept, Gone(m[a], l.items))
    ensures ListsOk(Store(m, a, l), strict)
    ensures Agree(Store(m, a, l), o, all - (Txs(Gone(m[a], l.items)) - Txs(kept)), floating + Txs(kept))
  {
    hide ListState.Valid, Txs, Has, Afloat, Store, Gone, Part;
    StoreItems(m, a, l);
    ShrinkLists(m, strict, a, l);
    AfloatMore(m, o, strict, floating, a, l, kept);
    ShrinkApart(m, o, a, l);
    forall tx ensures tx in all - (Txs(Gone(m[a], l.items)) - Txs(kept)) <==>
                        Has(Store(m, a, l), tx) || Has(o, tx) || tx in floating + Txs(kept) {
      ShrinkMember(m, o, strict, all, floating, a, l, kept, tx);
    }
  }

  lemma ShrinkLists(m: Lists, strict: bool, a: Address, l: ListState)
    requires ListsOk(m, strict) && a in m && l.Valid() && l.strict == strict && Part(l.items, m[a].items)
    ensures ListsOk(Store(m, a, l), strict)
  {
    hide ListState.Valid;
    assert ListOk(m[a], a, strict);
    assert l.items != map[] ==> ListOk(l, a, strict);
  }

  lemma ShrinkApart(m: Lists, o: Lists, a: Address, l: ListState)
    requires Apart(m, o) && a in m && Part(l.items, m[a].items)
    ensures Apart(Store(m, a, l), o)
  {
    StoreItems(m, a, l);
    forall b ensures Items(Store(m, a, l), b).Keys !! Items(o, b).Keys {
      assert Items(m, b).Keys !! Items(o, b).Keys;
    }
  }

  lemma ShrinkMember(m: Lists, o: Lists, strict: bool, all: set<Tx>, floating: set<Tx>, a: Address, l: ListState, kept: NonceMap, tx: Tx)
    requires ListsOk(m, strict) && Agree(m, o, all, floating) && a in m
    requires Part(l.items, m[a].items) && Part(kept, Gone(m[a], l.items))
    ensures tx in all - (Txs(Gone(m[a], l.items)) - Txs(kept)) <==>
            Has(Store(m, a, l), tx) || Has(o, tx) || tx in floating + Txs(kept)
  {
    hide ListState.Valid, Txs;
    var gone := Gone(m[a], l.items);
    StoreItems(m, a, l);
    assert ListOk(m[a], a, strict);
    ValidKeyed(m[a]);
    ValuesHold(gone);
    ValuesHold(kept);
    assert Holds(gone, tx) ==> tx.sender == a;
    assert Holds(kept, tx) ==> Holds(gone, tx);
  }

  lemma AfloatMore(m: Lists, o: Lists, strict: bool, floating: set<Tx>, a: Address, l: ListState, kept: NonceMap)
    requires a in m && ListOk(m[a], a, strict) && Apart(m, o) && Afloat(m, o, floating)
    requires Part(l.items, m[a].items) && Part(kept, Gone(m[a], l.items))
    ensures Afloat(Store(m, a, l), o, floating + Txs(kept))
  {
    StoreItems(m, a, l);
    forall tx | tx in Txs(kept) ensures tx.sender == a && tx.nonce in m[a].items && tx.nonce !in l.items
                                          && tx.nonce in kept && kept[tx.nonce] == tx {
    }
  }

  /** The nonce of tx is free of floating transactions other than tx itself. */
  ghost predicate NoClash(floating: set<Tx>, tx: Tx) {
    forall t :: t in floating && t.sender == tx.sender && t.nonce == tx.nonce ==> t == tx
  }

  /** The transaction that tx would push out of the lists. */
  function Prior(m: Lists, tx: Tx): Option<Tx> {
    if tx.nonce in Items(m, tx.sender) then Some(Items(m, tx.sender)[tx.nonce]) else None
  }

  function AsSet(o: Option<Tx>): set<Tx> {
    if o.Some? then {o.value} else {}
  }

  lemma FloatingFits(m: Lists, o: Lists, all: set<Tx>, floating: set<Tx>, tx: Tx)
    requires Agree(m, o, all, floating) && tx in floating
    ensures tx in all && Prior(m, tx) == None && Prior(o, tx) == None && NoClash(floating, tx)
  {
  }

  /** What still floats after all of txs but todo found their place. */
  ghost function StillFloating(floating: set<Tx>, txs: NonceMap, todo: NonceMap): set<Tx> {
    floating - (Txs(txs) - Txs(todo))
  }

  ghost function Done(txs: NonceMap, todo: NonceMap): NonceMap {
    txs - todo.Keys
  }

  lemma AllOrNone(floating: set<Tx>, txs: NonceMap, items: NonceMap)
    ensures StillFloating(floating, txs, txs) == floating
    ensures StillFloating(floating, txs, map[]) == floating - Txs(txs)
    ensures items + Done(txs, txs) == items && Part(txs, txs)
    ensures Done(txs, map[]) == txs
  {
    assert Done(txs, txs) == map[];
    assert Done(txs, map[]) == txs;
  }

  lemma MergeOne(items: NonceMap, more: NonceMap, n: nat, tx: Tx)
    ensures (items + more)[n := tx] == items + more[n := tx]
  {
  }

  lemma OneLess(floating: set<Tx>, txs: NonceMap, todo: NonceMap, n: nat)
    requires Keyed(txs) && n in todo && Part(todo, txs) && Txs(txs) <= floating
    ensures n in txs && todo[n] == txs[n] && todo[n].nonce == n && todo[n] in StillFloating(floating, txs, todo)
    ensures StillFloating(floating, txs, todo - {n}) == StillFloating(floating, txs, todo) - {todo[n]}
    ensures Part(todo - {n}, txs)
    ensures Done(txs, todo)[n := todo[n]] == Done(txs, todo - {n})
  {
    assert Keyed(todo);
    ValuesMinus(todo, n);
    assert todo[n] in Txs(todo) && txs[n] in Txs(txs);
  }

  /** A transaction enters a list, pushing out the one with the same nonce if there is one. */
  lemma Grow(m: Lists, o: Lists, strict: bool, all: set<Tx>, floating: set<Tx>, tx: Tx, bump: nat)
    requires ListsOk(m, strict) && Agree(m, o, all, floating)
    requires tx.nonce !in Items(o, tx.sender) && NoClash(floating, tx)
    requires tx in all ==> tx in floating
    requires ListOf(m, tx.sender, strict).Add(tx, bump).inserted
    ensures var m' := m[tx.sender := ListOf(m, tx.sender, strict).Add(tx, bump).list];
            && ListsOk(m', strict)
            && Agree(m', o, all - AsSet(Prior(m, tx)) + {tx}, floating - {tx})
            && Items(m', tx.sender) == Items(m, tx.sender)[tx.nonce := tx]
            && m' - {tx.sender} == m - {tx.sender}
    ensures ListOf(m, tx.sender, strict).Add(tx, bump).replaced == Prior(m, tx)
    ensures tx in floating ==> tx in all && Prior(m, tx) == None
    ensures Prior(m, tx).Some? ==> Prior(m, tx).value in all && Prior(m, tx).value != tx && tx !in all
  {
    hide Agree, ListsOk;
    var m' := m[tx.sender := ListOf(m, tx.sender, strict).Add(tx, bump).list];
    GrowLists(m, strict, tx, bump);
    GrowAgree(m, o, strict, all, floating, tx, m');
    GrowPrior(m, o, strict, all, floating, tx);
  }

  lemma GrowLists(m: Lists, strict: bool, tx: Tx, bump: nat)
    requires ListsOk(m, strict) && ListOf(m, tx.sender, strict).Add(tx, bump).inserted
    ensures ListsOk(m[tx.sender := ListOf(m, tx.sender, strict).Add(tx, bump).list], strict)
  {
    hide ListState.Valid;
    var a := tx.sender;
    var l := ListOf(m, a, strict);
    assert a in m ==> ListOk(m[a], a, strict);
    EmptyValid(strict);
    AddKeepsCaps(l, tx, bump);
    assert ListOk(l.Add(tx, bump).list, a, strict);
  }

  lemma EmptyValid(strict: bool)
    ensures EmptyList(strict).Valid()
  {
  }

  lemma GrowPrior(m: Lists, o: Lists, strict: bool, all: set<Tx>, floating: set<Tx>, tx: Tx)
    requires ListsOk(m, strict) && Agree(m, o, all, floating) && (tx in all ==> tx in floating)
    ensures tx in floating ==> tx in all && Prior(m, tx) == None
    ensures Prior(m, tx).Some? ==> Prior(m, tx).value in all && Prior(m, tx).value != tx && tx !in all
  {
    hide ListState.Valid;
    if Prior(m, tx).Some? {
      assert ListOk(m[tx.sender], tx.sender, strict);
      ValidKeyed(m[tx.sender]);
      assert Has(m, Prior(m, tx).value);
    }
  }

  lemma GrowAgree(m: Lists, o: Lists, strict: bool, all: set<Tx>, floating: set<Tx>, tx: Tx, m': Lists)
    requires ListsOk(m, strict) && Agree(m, o, all, floating)
    requires tx.nonce !in Items(o, tx.sender) && NoClash(floating, tx)
    requires tx in all ==> tx in floating
    requires Items(m', tx.sender) == Items(m, tx.sender)[tx.nonce := tx]
    requires forall b :: b != tx.sender ==> Items(m', b) == Items(m, b)
    ensures Agree(m', o, all - AsSet(Prior(m, tx)) + {tx}, floating - {tx})
  {
    assert Apart(m', o);
    assert Afloat(m', o, floating - {tx});
    forall t ensures t in all - AsSet(Prior(m, tx)) + {tx} <==> Has(m', t) || Has(o, t) || t in floating - {tx} {
      assert t.sender != tx.sender ==> Has(m', t) == Has(m, t);
    }
  }

  lemma ItemsFrame(m: Lists, m': Lists, a: Address)
    requires m' - {a} == m - {a}
    ensures forall b :: b != a ==> Items(m', b) == Items(m, b)
  {
    SameElsewhere(m, m', a);
  }

  /** What shrinking the list of an account to l takes out of the pool when kept goes on floating. */
  ghost predicate Shrinks(from: ListState, l: ListState, kept: NonceMap, out: set<Tx>) {
    && l.Valid() && l.strict == from.strict && Part(l.items, from.items)
    && Part(kept, Gone(from, l.items))
    && out == Txs(Gone(from, l.items)) - Txs(kept)
  }

  lemma ShrinkPending(p: Lists, q: Lists, all: set<Tx>, floating: set<Tx>, a: Address, l: ListState, kept: NonceMap, out: set<Tx>)
    requires Consistent(p, q, all, floating) && a in p && Shrinks(p[a], l, kept, out)
    ensures Consistent(Store(p, a, l), q, all - out, floating + Txs(kept))
    ensures Items(Store(p, a, l), a) == l.items && Store(p, a, l) - {a} == p - {a}
  {
    assert ListOk(p[a], a, true);
    StoreItems(p, a, l);
    Shrink(p, q, true, all, floating, a, l, kept);
  }

  lemma ShrinkQueue(p: Lists, q: Lists, all: set<Tx>, floating: set<Tx>, a: Address, l: ListState, kept: NonceMap, out: set<Tx>)
    requires Consistent(p, q, all, floating) && a in q && Shrinks(q[a], l, kept, out)
    ensures Consistent(p, Store(q, a, l), all - out, floating + Txs(kept))
    ensures Items(Store(q, a, l), a) == l.items && Store(q, a, l) - {a} == q - {a}
  {
    assert ListOk(q[a], a, false);
    StoreItems(q, a, l);
    AgreeSymmetric(p, q, all, floating);
    Shrink(q, p, false, all, floating, a, l, kept);
    AgreeSymmetric(p, Store(q, a, l), all - out, floating + Txs(kept));
  }

  lemma RemoveStrict(l: ListState, n: nat)
    requires l.Valid() && l.strict && n in l.items
    ensures var r := l.Remove(n);
            && r.found && r.list.items == Below(l.items, n) && r.invalids == AtLeast(l.items, n + 1)
            && Part(r.invalids, l.items) && Shrinks(l, r.list, r.invalids, {l.items[n]})
  {
    hide ListState.Remove, ListState.Valid;
    var r := l.Remove(n);
    ValidKeyed(l);
    DroppingKeepsCaps(l, n);
    RemoveParts(l, n);
    GoneValues(l.items, n, Gone(l, r.list.items), r.invalids);
  }

  lemma ValidKeyed(l: ListState)
    requires l.Valid()
    ensures Keyed(l.items)
  {
  }

  lemma RemoveParts(l: ListState, n: nat)
    requires Keyed(l.items) && l.strict && n in l.items
    ensures var r := l.Remove(n);
            && r.found && r.list.strict && r.list.items == Below(l.items, n) && r.invalids == AtLeast(l.items, n + 1)
            && Gone(l, r.list.items) == AtLeast(l.items, n)
  {
  }

  lemma GoneValues(items: NonceMap, n: nat, gone: NonceMap, invalids: NonceMap)
    requires Keyed(items) && n in items
    requires gone == AtLeast(items, n) && invalids == AtLeast(items, n + 1)
    ensures Txs(gone) - Txs(invalids) == {items[n]}
  {
    assert gone[n] in Txs(gone);
    forall tx | tx in Txs(gone) && tx != items[n] ensures tx in Txs(invalids) {
      assert Holds(gone, tx);
      assert invalids[tx.nonce] in Txs(invalids);
    }
    assert forall tx :: tx in Txs(invalids) ==> tx.nonce != n;
  }

  lemma RemoveLoose(l: ListState, n: nat)
    requires l.Valid() && !l.strict && n in l.items
    ensures var r := l.Remove(n);
            r.found && r.list.items == l.items - {n} && Shrinks(l, r.list, map[], {l.items[n]})
  {
    var r := l.Remove(n);
    DroppingKeepsCaps(l, n);
    var gone := Gone(l, r.list.items);
    ValuesHold(gone);
    assert Holds(gone, l.items[n]);
    assert forall tx :: Holds(gone, tx) ==> tx == l.items[n];
  }

  /** Deleting by nonce is safe: a pooled transaction whose nonce is pending is the pending one,
      and otherwise it is the queued one. */
  lemma NonceTells(p: Lists, q: Lists, all: set<Tx>, tx: Tx)
    requires Consistent(p, q, all, {}) && tx in all
    ensures var a := tx.sender;
            if tx.nonce in Items(p, a) then
              a in p && ListOk(p[a], a, true) && Holds(p[a].items, tx)
            else
              a in q && ListOk(q[a], a, false) && Holds(q[a].items, tx)
  {
    var a := tx.sender;
    assert Items(p, a).Keys !! Items(q, a).Keys;
    assert Has(p, tx) || Has(q, tx);
  }

  lemma PartOf(l: ListState, items: NonceMap, a: Address, strict: bool)
    requires ListOk(l, a, strict) && Part(items, l.items)
    ensures Keyed(items) && forall n :: n in items ==> items[n].sender == a
  {
  }

  /** The pending part of removing a transaction, all facts at once. */
  lemma RemovePending(p: Lists, q: Lists, all: set<Tx>, tx: Tx)
    requires Consistent(p, q, all + {tx}, {}) && tx !in all && tx.nonce in Items(p, tx.sender)
    ensures var a := tx.sender;
            && a in p && Items(p, a) == p[a].items
            && var r := p[a].Remove(tx.nonce);
            && r.found && r.invalids == AtLeast(Items(p, a), tx.nonce + 1)
            && Consistent(Store(p, a, r.list), q, all, Txs(r.invalids))
            && Items(Store(p, a, r.list), a) == Below(Items(p, a), tx.nonce)
            && Store(p, a, r.list) - {a} == p - {a}
            && Keyed(r.invalids) && (forall n :: n in r.invalids ==> r.invalids[n].sender == a)
  {
    hide Consistent, Store, Shrinks, ListState.Remove, ListState.Valid, Below, AtLeast, Txs, Part;
    var a := tx.sender;
    NonceTells(p, q, all + {tx}, tx);
    RemoveStrict(p[a], tx.nonce);
    var r := p[a].Remove(tx.nonce);
    PartOf(p[a], r.invalids, a, true);
    ShrinkPending(p, q, all + {tx}, {}, a, r.list, r.invalids, {tx});
    assert all + {tx} - {tx} == all;
    assert {} + Txs(r.invalids) == Txs(r.invalids);
  }

  /** The queued part of removing a transaction. */
  lemma RemoveQueued(p: Lists, q: Lists, all: set<Tx>, tx: Tx)
    requires Consistent(p, q, all + {tx}, {}) && tx !in all && tx.nonce !in Items(p, tx.sender)
    ensures var a := tx.sender;
            && a in q && Items(q, a) == q[a].items
            && var l := q[a].Remove(tx.nonce).list;
            && Consistent(p, Store(q, a, l), all, {})
            && Items(Store(q, a, l), a) == Items(q, a) - {tx.nonce}
            && Store(q, a, l) - {a} == q - {a}
            && (a in Store(q, a, l) <==> l.items != map[])
  {
    hide Consistent, Shrinks, ListState.Remove, ListState.Valid;
    var a := tx.sender;
    NonceTells(p, q, all + {tx}, tx);
    var r := q[a].Remove(tx.nonce);
    RemoveLoose(q[a], tx.nonce);
    var none: NonceMap := map[];
    ShrinkQueue(p, q, all + {tx}, {}, a, r.list, none, {tx});
    assert all + {tx} - {tx} == all;
    assert {} + Txs(none) == {};
  }

  lemma KeysFrame(q: Lists, q': Lists, beats: map<Address, int>, beats': map<Address, int>, a: Address)
    requires q.Keys <= beats.Keys && q' - {a} == q - {a} && beats' - {a} == beats - {a}
    requires a in q' ==> a in beats'
    ensures q'.Keys <= beats'.Keys
  {
    SameElsewhere(q, q', a);
    SameElsewhere(beats, beats', a);
  }

  /** Cutting a contiguous list at one of its nonces leaves it contiguous. */
  lemma CutContiguous(items: NonceMap, lo: nat, hi: nat, n: nat)
    requires Contiguous(items, lo, hi) && n in items
    ensures Contiguous(Below(items, n), lo, n) && n < hi
  {
  }

  /** Each transaction on its own can be paid for and fits the gas limit. */
  ghost predicate Payable(items: NonceMap, balance: int, maxGas: nat) {
    forall n :: n in items ==> !Unpayable(balance, maxGas)(items[n])
  }

  lemma PayableBelow(items: NonceMap, k: nat, balance: int, maxGas: nat)
    requires Payable(items, balance, maxGas)
    ensures Payable(Below(items, k), balance, maxGas)
  {
  }

  lemma PayablePut(items: NonceMap, tx: Tx, balance: int, maxGas: nat)
    requires Payable(items, balance, maxGas) && !Unpayable(balance, maxGas)(tx)
    ensures Payable(items[tx.nonce := tx], balance, maxGas)
  {
  }

  lemma PayableLowest(items: NonceMap, k: nat, balance: int, maxGas: nat)
    requires Payable(items, balance, maxGas)
    ensures Payable(Lowest(items, k), balance, maxGas)
  {
    LowestFacts(items, k);
  }

  lemma PayableBoth(items: NonceMap, more: NonceMap, balance: int, maxGas: nat)
    requires Payable(items, balance, maxGas) && Payable(more, balance, maxGas)
    ensures Payable(items + more, balance, maxGas)
  {
  }

  /** A transaction replaces the pending one with its nonce. */
  lemma ReplacePending(p: Lists, q: Lists, all: set<Tx>, tx: Tx, bump: nat)
    requires Consistent(p, q, all, {}) && tx !in all && tx.nonce in Items(p, tx.sender)
    requires p[tx.sender].Add(tx, bump).inserted
    ensures var add := p[tx.sender].Add(tx, bump);
            && add.replaced == Prior(p, tx) && add.replaced.Some?
            && add.replaced.value in all && add.replaced.value != tx
            && var p' := p[tx.sender := add.list];
            && Consistent(p', q, all - AsSet(add.replaced) + {tx}, {})
            && p' - {tx.sender} == p - {tx.sender}
            && Items(p', tx.sender) == Items(p, tx.sender)[tx.nonce := tx]
  {
    assert Items(p, tx.sender).Keys !! Items(q, tx.sender).Keys;
    assert NoClash({}, tx);
    assert {} - {tx} == {};
    Grow(p, q, true, all, {}, tx, bump);
  }

  lemma SameNonces(items: NonceMap, tx: Tx, lo: nat, hi: nat)
    requires Contiguous(items, lo, hi) && tx.nonce in items
    ensures Contiguous(items[tx.nonce := tx], lo, hi)
  {
  }

  lemma PriorFits(p: Lists, q: Lists, all: set<Tx>, tx: Tx)
    requires Consistent(p, q, all, {})
    ensures Prior(p, tx).Some? ==> Prior(p, tx).value.sender == tx.sender && Prior(p, tx).value.nonce == tx.nonce
    ensures Prior(q, tx).Some? ==> Prior(q, tx).value.sender == tx.sender && Prior(q, tx).value.nonce == tx.nonce
  {
  }

  lemma PriorPooled(p: Lists, q: Lists, all: set<Tx>, tx: Tx)
    requires Consistent(p, q, all, {})
    ensures Prior(p, tx).Some? ==> Prior(p, tx).value in all
    ensures Prior(q, tx).Some? ==> Prior(q, tx).value in all
  {
    PriorFits(p, q, all, tx);
    if Prior(p, tx).Some? {
      assert Has(p, Prior(p, tx).value);
    }
    if Prior(q, tx).Some? {
      assert Has(q, Prior(q, tx).value);
    }
  }

  lemma QueuedIsPooled(p: Lists, q: Lists, all: set<Tx>, a: Address, tx: Tx)
    requires Consistent(p, q, all, {}) && Holds(Items(q, a), tx)
    ensures tx in all && tx.sender == a && tx.nonce !in Items(p, a)
  {
    assert ListOk(q[a], a, false);
    assert Has(q, tx);
    assert Items(p, a).Keys !! Items(q, a).Keys;
  }

  lemma QueueKeyed(p: Lists, q: Lists, all: set<Tx>, a: Address)
    requires Consistent(p, q, all, {})
    ensures Keyed(Items(q, a))
  {
    assert a in q ==> ListOk(q[a], a, false);
  }

  lemma EmptyIsGone(p: Lists, q: Lists, all: set<Tx>, a: Address)
    requires Consistent(p, q, all, {}) && Sorted(Items(q, a)) == []
    ensures q == q - {a}
  {
    SortedEmpty(Items(q, a));
    if a in q {
      QueueListOk(p, q, all, a);
    }
  }

  lemma WholeQueue(items: NonceMap)
    requires Keyed(items)
    ensures |Sorted(items)| == Count(items) && Lowest(items, Count(items)) == items
  {
    SortedLists(items);
  }

  lemma LastOfLowest(items: NonceMap, i: nat)
    requires Keyed(items) && i < Count(items)
    ensures |Sorted(items)| == Count(items)
    ensures Holds(Lowest(items, i + 1), Sorted(items)[i])
    ensures Lowest(items, i + 1) - {Sorted(items)[i].nonce} == Lowest(items, i)
  {
    var low := Lowest(items, i + 1);
    LowestFacts(items, i + 1);
    LowestSorted(items, i + 1);
    SortedTail(low);
    LowestAgain(items, i + 1, i);
    assert Sorted(low)[i] == Sorted(items)[i];
  }

  lemma FloatingStep(floating: set<Tx>, txs: NonceMap, todo: NonceMap)
    requires Keyed(txs) && Part(todo, txs) && Txs(txs) <= floating && Sorted(todo) != []
    ensures var tx := Sorted(todo)[0];
            && tx.nonce in txs && txs[tx.nonce] == tx
            && tx in StillFloating(floating, txs, todo)
            && StillFloating(floating, txs, todo - {tx.nonce}) == StillFloating(floating, txs, todo) - {tx}
            && Part(todo - {tx.nonce}, txs)
            && Done(txs, todo)[tx.nonce := tx] == Done(txs, todo - {tx.nonce})
            && Sorted(todo - {tx.nonce}) == Sorted(todo)[1..]
  {
    SortedHead(todo);
    OneLess(floating, txs, todo, Sorted(todo)[0].nonce);
  }

  /** Part of a queued list is pooled. */
  lemma QueuedPart(p: Lists, q: Lists, all: set<Tx>, floating: set<Tx>, a: Address, items: NonceMap)
    requires Consistent(p, q, all, floating) && a in q && Part(items, q[a].items)
    ensures ListOk(q[a], a, false) && Keyed(items) && Txs(items) <= all
    ensures forall n :: n in items ==> items[n].sender == a
  {
    assert ListOk(q[a], a, false);
    forall tx | tx in Txs(items) ensures tx in all {
      assert Holds(items, tx);
      assert Has(q, tx);
    }
  }

  lemma PendingPart(p: Lists, q: Lists, all: set<Tx>, floating: set<Tx>, a: Address, items: NonceMap)
    requires Consistent(p, q, all, floating) && a in p && Part(items, p[a].items)
    ensures ListOk(p[a], a, true) && Keyed(items) && Txs(items) <= all
    ensures forall n :: n in items ==> items[n].sender == a
  {
    assert ListOk(p[a], a, true);
    forall tx | tx in Txs(items) ensures tx in all {
      assert Holds(items, tx);
      assert Has(p, tx);
    }
  }

  lemma ApartValues(a: NonceMap, b: NonceMap)
    requires Keyed(a) && Keyed(b) && a.Keys !! b.Keys
    ensures Txs(a) !! Txs(b)
  {
    ValuesHold(a);
    ValuesHold(b);
  }

  lemma QueueListOk(p: Lists, q: Lists, all: set<Tx>, a: Address)
    requires Consistent(p, q, all, {}) && a in q
    ensures ListOk(q[a], a, false)
  {
  }

  lemma PendingListOk(p: Lists, q: Lists, all: set<Tx>, a: Address)
    requires Consistent(p, q, all, {}) && a in p
    ensures ListOk(p[a], a, true)
  {
  }

  lemma ItemsApart(p: Lists, q: Lists, all: set<Tx>, a: Address)
    requires Consistent(p, q, all, {})
    ensures Items(p, a).Keys !! Items(q, a).Keys
  {
  }

  lemma ListOkValid(l: ListState, a: Address, strict: bool)
    requires ListOk(l, a, strict)
    ensures l.Valid() && l.strict == strict
  {
  }

  lemma ShrinksValid(from: ListState, l: ListState, kept: NonceMap, out: set<Tx>)
    requires Shrinks(from, l, kept, out)
    ensures l.Valid()
  {
  }
}
