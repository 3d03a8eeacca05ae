/** Promotion, demotion and truncation move transactions between lists or out of the pool, and bring
    none in (core/tx_pool.go). */
module Outflow {
  import opened Collections
  import opened TxTypes
  import opened List
  import opened PoolModel
  import opened Promotion
  import opened Demotion
  import opened Totals
  import opened Fairness

  /** Whatever an account's two lists hold afterwards, one of them held before. */
  ghost predicate Fewer(p0: NonceMap, q0: NonceMap, p: NonceMap, q: NonceMap) {
    forall tx :: Holds(p, tx) || Holds(q, tx) ==> Holds(p0, tx) || Holds(q0, tx)
  }

  lemma FewerPooled(p0: Lists, q0: Lists, all0: set<Tx>, p: Lists, q: Lists, all: set<Tx>)
    requires Consistent(p0, q0, all0, {}) && Consistent(p, q, all, {})
    requires forall b :: Fewer(Items(p0, b), Items(q0, b), Items(p, b), Items(q, b))
    ensures all <= all0
  {
    hide Items;
    forall tx | tx in all ensures tx in all0 {
      assert Has(p, tx) || Has(q, tx);
      assert Fewer(Items(p0, tx.sender), Items(q0, tx.sender), Items(p, tx.sender), Items(q, tx.sender));
      assert Has(p0, tx) || Has(q0, tx);
    }
  }

  lemma PromoteFewer(p: NonceMap, l: ListState, nonce: nat, balance: int, maxGas: nat, expected: nat, limit: Option<nat>)
    requires l.Valid() && !l.strict
    ensures var pr := Promote(l, nonce, balance, maxGas, expected, limit);
            Fewer(p, l.items, p + pr.readies, pr.list.items)
  {
    hide Promote, ListState.Valid;
    PromoteParts(l, nonce, balance, maxGas, expected, limit);
    PromoteRest(l, nonce, balance, maxGas, expected, limit);
    PromoteListItems(l, nonce, balance, maxGas, expected, limit);
    if limit.Some? {
      LowestFacts(Promote(l, nonce, balance, maxGas, expected, limit).rest.items, limit.value);
    }
  }

  lemma DemoteFewer(l: ListState, q: NonceMap, nonce: nat, balance: int, maxGas: nat)
    requires l.Valid() && l.strict
    ensures var dm := Demote(l, nonce, balance, maxGas);
            Fewer(l.items, q, dm.list.items, q + dm.invalids + dm.gapped)
  {
    hide Demote, ListState.Valid;
    DemoteRest(l, nonce, balance, maxGas);
    DemoteKeeps(l, nonce, balance, maxGas);
    GappedRest(l, nonce, balance, maxGas);
  }

  lemma GappedRest(l: ListState, nonce: nat, balance: int, maxGas: nat)
    ensures var dm := Demote(l, nonce, balance, maxGas); dm.gapped == map[] || dm.gapped == dm.rest.items
  {
    hide ListState.Filter, ListState.Forward, ListState.Cap;
  }

  lemma CutFewer(p0: Lists, p: Lists, locals: set<Address>, level: nat, q0: NonceMap, q: NonceMap, b: Address)
    requires CutAt(p0, p, locals, level) && KeepsLowest(q, q0)
    ensures Fewer(Items(p0, b), q0, Items(p, b), q)
  {
    hide Lowest;
    var k: nat :| q == Lowest(q0, k);
    LowestFacts(q0, k);
    if b in p0 {
      LowestFacts(p0[b].items, level);
    }
  }
}
