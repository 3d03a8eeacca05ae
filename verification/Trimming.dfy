/** How additions and removals change pending lists: they only cut tails, and the virtual nonce
    follows the lowest nonce cut (core/tx_pool.go, core/tx_noncer.go). */
module Trimming {
  import opened Collections
  import opened TxTypes
  import opened List
  import opened PoolModel
  import opened Noncer

  /** The nonces after are those before without a tail, and the virtual nonce is the least of what it
      was and of the nonces cut. */
  ghost predicate Trimmed(before: NonceMap, after: NonceMap, n0: nat, n: nat) {
    && after.Keys <= before.Keys
    && (forall m, k :: m in before && k in after && m < k ==> m in after)
    && n <= n0 && (forall m :: m in before && m !in after ==> n <= m)
    && (n == n0 || (n in before && n !in after))
  }

  ghost predicate Trims(p0: Lists, n0: Nonces, p: Lists, n: Nonces) {
    forall b: Address :: Trimmed(Items(p0, b), Items(p, b), n0.At(b), n.At(b))
  }

  ghost predicate SameKeys(p0: Lists, p: Lists) {
    forall b: Address :: Items(p, b).Keys == Items(p0, b).Keys
  }

  lemma TrimsNothing(p: Lists, n: Nonces)
    ensures Trims(p, n, p, n) && SameKeys(p, p)
  {
  }

  lemma SameKeysTwice(p0: Lists, p1: Lists, p2: Lists)
    requires SameKeys(p0, p1) && SameKeys(p1, p2)
    ensures SameKeys(p0, p2)
  {
  }

  lemma TrimmedTwice(a: NonceMap, b: NonceMap, c: NonceMap, n0: nat, n1: nat, n2: nat)
    requires Trimmed(a, b, n0, n1) && Trimmed(b, c, n1, n2)
    ensures Trimmed(a, c, n0, n2)
  {
    assert forall m :: m in c ==> m in b.Keys;
    assert forall m :: m in b ==> m in a.Keys;
  }

  lemma TrimsTwice(p0: Lists, n0: Nonces, p1: Lists, n1: Nonces, p2: Lists, n2: Nonces)
    requires Trims(p0, n0, p1, n1) && Trims(p1, n1, p2, n2)
    ensures Trims(p0, n0, p2, n2)
  {
    hide Trimmed, Items;
    forall b: Address ensures Trimmed(Items(p0, b), Items(p2, b), n0.At(b), n2.At(b)) {
      TrimmedTwice(Items(p0, b), Items(p1, b), Items(p2, b), n0.At(b), n1.At(b), n2.At(b));
    }
  }

  lemma TrimsSame(p0: Lists, n0: Nonces, p1: Lists, p2: Lists, n: Nonces)
    requires Trims(p0, n0, p1, n) && SameKeys(p1, p2)
    ensures Trims(p0, n0, p2, n)
  {
    hide Items;
    forall b: Address ensures Trimmed(Items(p0, b), Items(p2, b), n0.At(b), n.At(b)) {
      var a, c := Items(p1, b), Items(p2, b);
      assert Trimmed(Items(p0, b), a, n0.At(b), n.At(b)) && c.Keys == a.Keys;
      assert forall m :: m in c <==> m in a.Keys;
    }
  }

  /** Taking a pending nonce out cuts the tail from it, and lowers the virtual nonce to it. */
  lemma TrimOne(p0: Lists, n0: Nonces, p: Lists, n: Nonces, a: Address, k: nat)
    requires k in Items(p0, a) && Items(p, a) == Below(Items(p0, a), k)
    requires forall b :: b != a ==> Items(p, b) == Items(p0, b)
    requires forall b :: n.At(b) == if b == a && k < n0.At(b) then k else n0.At(b)
    ensures Trims(p0, n0, p, n)
  {
    hide Items;
  }

  /** The virtual nonce falls exactly when a lower nonce was cut. */
  lemma LoweredIff(before: NonceMap, after: NonceMap, n0: nat, n: nat)
    requires Trimmed(before, after, n0, n)
    ensures n < n0 <==> exists m :: m in before && m !in after && m < n0
  {
  }

  /** Where the virtual nonce fell, only lower nonces are left. */
  lemma TrimmedBelow(before: NonceMap, after: NonceMap, n0: nat, n: nat)
    requires Trimmed(before, after, n0, n) && n < n0
    ensures forall k :: k in after ==> k < n0
  {
  }

  /** A gapless list stays gapless from the same nonce. */
  lemma TrimmedContiguous(before: NonceMap, after: NonceMap, n0: nat, n: nat, lo: nat, hi: nat) returns (end: nat)
    requires Trimmed(before, after, n0, n) && Contiguous(before, lo, hi)
    ensures Contiguous(after, lo, end)
  {
    if after == map[] {
      end := lo;
    } else {
      end := Max(after.Keys) + 1;
      assert forall m :: m in after ==> m in before.Keys;
    }
  }

  lemma TrimsAt(p0: Lists, n0: Nonces, p: Lists, n: Nonces, b: Address)
    requires Trims(p0, n0, p, n)
    ensures Trimmed(Items(p0, b), Items(p, b), n0.At(b), n.At(b))
  {
  }

  lemma TrimsLower(p0: Lists, n0: Nonces, p: Lists, n: Nonces)
    requires Trims(p0, n0, p, n)
    ensures forall b :: n.At(b) <= n0.At(b)
  {
    forall b ensures n.At(b) <= n0.At(b) {
      assert Trimmed(Items(p0, b), Items(p, b), n0.At(b), n.At(b));
    }
  }

  /** What stays pending when the given transactions leave the pool: whatever has none of them at or
      below its nonce. */
  ghost function Pruned(p: NonceMap, gone: set<Tx>): NonceMap {
    map n | n in p && (forall m :: m in p && m <= n ==> p[m] !in gone) :: p[n]
  }

  lemma PrunedNone(p: NonceMap, gone: set<Tx>)
    requires forall n :: n in p ==> p[n] !in gone
    ensures Pruned(p, gone) == p
  {
  }

  lemma PrunedTwice(p: NonceMap, a: set<Tx>, b: set<Tx>)
    ensures Pruned(Pruned(p, a), b) == Pruned(p, a + b)
  {
    forall n ensures n in Pruned(Pruned(p, a), b) <==> n in Pruned(p, a + b) {
      if n in Pruned(p, a + b) {
        assert n in Pruned(p, a);
      } else if n in Pruned(p, a) {
        var m :| m in p && m <= n && p[m] in a + b;
        assert m in Pruned(p, a) && p[m] in b;
      }
    }
  }

  lemma PrunedOne(p: NonceMap, tx: Tx)
    requires Keyed(p) && Holds(p, tx)
    ensures Pruned(p, {tx}) == Below(p, tx.nonce)
  {
    forall n ensures n in Pruned(p, {tx}) <==> n in Below(p, tx.nonce) {
      if n in p && tx.nonce <= n {
        assert p[tx.nonce] in {tx};
      }
    }
  }

  /** Every account's pending list is pruned. */
  ghost predicate Prunes(p0: Lists, p: Lists, gone: set<Tx>) {
    forall b: Address :: Items(p, b) == Pruned(Items(p0, b), gone)
  }

  lemma PrunesNothing(p: Lists)
    ensures Prunes(p, p, {})
  {
    forall b: Address ensures Items(p, b) == Pruned(Items(p, b), {}) {
      PrunedNone(Items(p, b), {});
    }
  }

  lemma PrunesTwice(p0: Lists, p1: Lists, p2: Lists, a: set<Tx>, b: set<Tx>)
    requires Prunes(p0, p1, a) && Prunes(p1, p2, b)
    ensures Prunes(p0, p2, a + b)
  {
    hide Items, Pruned;
    forall c: Address ensures Items(p2, c) == Pruned(Items(p0, c), a + b) {
      PrunedTwice(Items(p0, c), a, b);
    }
  }

  /** One transaction leaves: only the pending list that holds it changes. */
  lemma PrunesOne(p0: Lists, q0: Lists, all: set<Tx>, p: Lists, tx: Tx)
    requires Consistent(p0, q0, all, {}) && p - {tx.sender} == p0 - {tx.sender}
    requires if tx in all && tx.nonce in Items(p0, tx.sender) then Items(p, tx.sender) == Below(Items(p0, tx.sender), tx.nonce)
             else p == p0
    ensures Prunes(p0, p, {tx})
  {
    hide Pruned, Below, Consistent;
    forall b: Address ensures Items(p, b) == Pruned(Items(p0, b), {tx}) {
      PendingOf(p0, q0, all, b);
      if b == tx.sender && tx in all && tx.nonce in Items(p0, b) {
        NonceTells(p0, q0, all, tx);
        PrunedOne(Items(p0, b), tx);
      } else {
        if b != tx.sender {
          ItemsFrame(p0, p, tx.sender);
        }
        PrunedNone(Items(p0, b), {tx});
      }
    }
  }

  lemma PendingOf(p: Lists, q: Lists, all: set<Tx>, b: Address)
    requires Consistent(p, q, all, {})
    ensures Keyed(Items(p, b)) && forall n :: n in Items(p, b) ==>
              Items(p, b)[n].sender == b && Items(p, b)[n].nonce == n && Items(p, b)[n] in all
  {
    if b in p {
      assert ListOk(p[b], b, true);
      forall n | n in p[b].items ensures p[b].items[n] in all {
        assert Has(p, p[b].items[n]);
      }
    }
  }

  /** A transaction takes the place of the pending one with its nonce, if there is one. */
  ghost function Seated(p: NonceMap, tx: Tx, added: bool): NonceMap {
    if added && tx.nonce in p then p[tx.nonce := tx] else p
  }

  /** Pending lists after a submission: pruned of what was given up for it, with the new one in its place. */
  ghost predicate Seats(p0: Lists, p: Lists, gone: set<Tx>, tx: Tx, added: bool) {
    forall b: Address :: Items(p, b) == Seated(Pruned(Items(p0, b), gone), tx, added && b == tx.sender)
  }

  lemma SeatsSame(p: Lists, tx: Tx)
    ensures Seats(p, p, {}, tx, false)
  {
    PrunesNothing(p);
    forall b: Address ensures Items(p, b) == Seated(Pruned(Items(p, b), {}), tx, false) {
    }
  }

  lemma SeatsAfter(p0: Lists, p1: Lists, p2: Lists, gone: set<Tx>, tx: Tx, added: bool)
    requires Prunes(p0, p1, gone) && p2 - {tx.sender} == p1 - {tx.sender}
    requires Items(p2, tx.sender) == Seated(Items(p1, tx.sender), tx, added)
    ensures Seats(p0, p2, gone, tx, added)
  {
    hide Items, Pruned;
    ItemsFrame(p1, p2, tx.sender);
    forall b: Address ensures Items(p2, b) == Seated(Pruned(Items(p0, b), gone), tx, added && b == tx.sender) {
      assert Items(p1, b) == Pruned(Items(p0, b), gone);
    }
  }
}
