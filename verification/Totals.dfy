/** How many transactions the lists of all accounts hold together. */
module Totals {
  import opened Collections
  import opened TxTypes
  import opened List
  import opened PoolModel

  ghost function Lens(m: Lists): map<Address, nat> {
    map a | a in m :: Count(m[a].items)
  }

  ghost function Total(m: Lists): nat {
    Sum(Lens(m))
  }

  /** Changing the list of one account changes the total by the difference in length. */
  lemma TotalChange(m: Lists, m': Lists, a: Address)
    requires m' - {a} == m - {a}
    ensures Total(m') + Count(Items(m, a)) == Total(m) + Count(Items(m', a))
  {
    LensWithout(m, a);
    LensWithout(m', a);
  }

  lemma LensWithout(m: Lists, a: Address)
    ensures Total(m) == Sum(Lens(m - {a})) + Count(Items(m, a))
  {
    if a in m {
      SumRemove(Lens(m), a);
      assert Lens(m) - {a} == Lens(m - {a});
    } else {
      assert m - {a} == m;
    }
  }

  /** Adds up the lengths, account by account. */
  method TotalOf(m: Lists) returns (n: nat)
    ensures n == Total(m)
  {
    n := 0;
    var todo := m;
    while todo != map[]
      invariant todo.Keys <= m.Keys && (forall a :: a in todo ==> todo[a] == m[a])
      invariant n + Total(todo) == Total(m)
      decreases |todo|
    {
      var a :| a in todo;
      n := n + Count(todo[a].items);
      LensWithout(todo, a);
      todo := todo - {a};
    }
  }

  lemma {:induction false} LatestExists(s: set<Address>, stamp: map<Address, int>)
    requires s != {} && s <= stamp.Keys
    ensures exists a :: a in s && Latest(a, s, stamp)
    decreases s
  {
    var a :| a in s;
    var rest := s - {a};
    if rest == {} {
      assert s == {a};
      assert Latest(a, s, stamp);
    } else {
      LatestExists(rest, stamp);
      var b :| b in rest && Latest(b, rest, stamp);
      assert forall c :: c in s ==> c == a || c in rest;
      assert Latest(if stamp[b] < stamp[a] then a else b, s, stamp);
    }
  }

  predicate Latest(a: Address, s: set<Address>, stamp: map<Address, int>)
    requires a in stamp && s <= stamp.Keys
  {
    forall b :: b in s ==> stamp[b] <= stamp[a]
  }

  /** items lost nothing but its highest nonces. */
  ghost predicate KeepsLowest(items: NonceMap, before: NonceMap) {
    exists k: nat :: items == Lowest(before, k)
  }

  lemma KeepsAll(items: NonceMap)
    ensures KeepsLowest(items, items)
  {
    assert items == Lowest(items, |items|);
  }

  lemma KeepsNone(items: NonceMap)
    ensures KeepsLowest(map[], items)
  {
    LowestFacts(items, 0);
    assert map[] == Lowest(items, 0);
  }

  /** Accounts that were picked for eviction already. */
  ghost predicate Picked(b: Address, q0: Lists, addresses: set<Address>, locals: set<Address>) {
    b in q0 && b !in addresses && b !in locals
  }

  /** Midway through evicting: picked accounts are gone, except possibly the last one, which was
      cut short; nobody still to be picked was active later than a picked one. */
  ghost predicate Evicting(q0: Lists, q: Lists, addresses: set<Address>, locals: set<Address>,
                           stamps: map<Address, int>, cut: Option<Address>) {
    && addresses <= q0.Keys - locals && q0.Keys <= stamps.Keys && q.Keys <= q0.Keys
    && (forall b :: b in q0 && !Picked(b, q0, addresses, locals) ==> b in q && q[b] == q0[b])
    && (forall b: Address :: Picked(b, q0, addresses, locals) && cut != Some(b) ==> b !in q)
    && (forall b :: KeepsLowest(Items(q, b), Items(q0, b)))
    && (forall b, c :: Picked(b, q0, addresses, locals) && c in addresses ==> stamps[c] <= stamps[b])
    && (cut.Some? ==> Picked(cut.value, q0, addresses, locals) &&
                      forall b :: Picked(b, q0, addresses, locals) ==> stamps[cut.value] <= stamps[b])
  }

  lemma EvictStart(q: Lists, locals: set<Address>, stamps: map<Address, int>)
    requires q.Keys <= stamps.Keys
    ensures Evicting(q, q, q.Keys - locals, locals, stamps, None)
  {
    forall b ensures KeepsLowest(Items(q, b), Items(q, b)) { KeepsAll(Items(q, b)); }
  }

  lemma EvictPick(q0: Lists, q: Lists, q': Lists, addresses: set<Address>, locals: set<Address>,
                  stamps: map<Address, int>, a: Address, all: bool)
    requires Evicting(q0, q, addresses, locals, stamps, None)
    requires a in addresses && Latest(a, addresses, stamps)
    requires q' - {a} == q - {a} && KeepsLowest(Items(q', a), Items(q, a)) && (all ==> a !in q')
    ensures Evicting(q0, q', addresses - {a}, locals, stamps, if all then None else Some(a))
  {
    hide KeepsLowest, Items;
    ItemsFrame(q, q', a);
    SameElsewhere(q, q', a);
    WaitingItems(q0, q, addresses, locals, stamps, a);
    forall b ensures KeepsLowest(Items(q', b), Items(q0, b)) {
    }
  }

  lemma WaitingItems(q0: Lists, q: Lists, addresses: set<Address>, locals: set<Address>, stamps: map<Address, int>, a: Address)
    requires Evicting(q0, q, addresses, locals, stamps, None) && a in addresses
    ensures Items(q, a) == Items(q0, a)
  {
    assert !Picked(a, q0, addresses, locals);
  }

  /** What eviction leaves: other accounts are untouched, nobody lost more than its highest nonces,
      an account lost something only when every later active remote one lost everything, and at most
      one account lost something and still has something queued. */
  ghost predicate Evicted(q0: Lists, q: Lists, locals: set<Address>, stamps: map<Address, int>)
    requires q0.Keys <= stamps.Keys
  {
    && (forall b :: KeepsLowest(Items(q, b), Items(q0, b)))
    && (forall b :: b in locals ==> Items(q, b) == Items(q0, b))
    && (forall b, c :: b in q0 && c in q0 && c !in locals && stamps[b] < stamps[c] && Items(q, b) != Items(q0, b) ==> c !in q)
    && (forall b, c :: b in q && c in q && Items(q, b) != Items(q0, b) && Items(q, c) != Items(q0, c) ==> b == c)
  }

  lemma EvictDone(q0: Lists, q: Lists, addresses: set<Address>, locals: set<Address>,
                  stamps: map<Address, int>, cut: Option<Address>)
    requires Evicting(q0, q, addresses, locals, stamps, cut)
    ensures Evicted(q0, q, locals, stamps)
    ensures addresses == {} && cut == None ==> forall b :: b in q ==> b in locals
  {
    hide KeepsLowest;
    forall b | b in locals ensures Items(q, b) == Items(q0, b) {
      assert !Picked(b, q0, addresses, locals);
    }
    forall b, c | b in q0 && c in q0 && c !in locals && stamps[b] < stamps[c] && Items(q, b) != Items(q0, b)
      ensures c !in q {
      assert Picked(b, q0, addresses, locals);
      assert c !in addresses;
      assert Picked(c, q0, addresses, locals);
    }
    forall b: Address | b in q && Items(q, b) != Items(q0, b) ensures cut == Some(b) {
      assert Picked(b, q0, addresses, locals);
    }
  }

  lemma EvictQueued(q0: Lists, q: Lists, addresses: set<Address>, locals: set<Address>, stamps: map<Address, int>, a: Address)
    requires Evicting(q0, q, addresses, locals, stamps, None) && a in addresses
    ensures a in q && Items(q, a) == q[a].items
  {
    assert !Picked(a, q0, addresses, locals);
  }

  lemma NoItems(q: Lists, a: Address)
    ensures a !in q ==> Items(q, a) == map[] && Count(Items(q, a)) == 0
  {
  }

  lemma TrimKeeps(q: Lists, a: Address, items: NonceMap, k: nat)
    requires Items(q, a) == Lowest(items, k) && 0 < k <= Count(items)
    ensures a in q && KeepsLowest(Items(q, a), items) && Count(Items(q, a)) == k
  {
    LowestFacts(items, k);
  }
}
