/** Cutting the pending lists of remote accounts down to a common level (core/tx_pool.go). */
module Fairness {
  import opened Collections
  import opened TxTypes
  import opened List
  import opened PoolModel
  import opened Totals

  /** Every remote account keeps its lowest nonces, at most level of them; locals keep everything. */
  ghost predicate CutAt(p0: Lists, p: Lists, locals: set<Address>, level: nat) {
    && p.Keys == p0.Keys
    && forall a :: a in p0 ==> p[a].items == if a in locals then p0[a].items else Lowest(p0[a].items, level)
  }

  ghost function LensAt(p0: Lists, locals: set<Address>, level: nat): map<Address, nat> {
    map a | a in p0 :: if a in locals then Count(p0[a].items) else Lesser(Count(p0[a].items), level)
  }

  /** The total that a common level would leave. */
  ghost function TotalAt(p0: Lists, locals: set<Address>, level: nat): nat {
    Sum(LensAt(p0, locals, level))
  }

  lemma CutTotal(p0: Lists, p: Lists, locals: set<Address>, level: nat)
    requires CutAt(p0, p, locals, level)
    ensures Total(p) == TotalAt(p0, locals, level)
  {
    forall a | a in p0 && a !in locals ensures Count(p[a].items) == Lesser(Count(p0[a].items), level) {
      LowestFacts(p0[a].items, level);
    }
    assert Lens(p) == LensAt(p0, locals, level);
  }

  /** The remote accounts longer than the guaranteed slots are those already popped, all of them
      at least level long, and those still waiting, none of them longer than level. */
  ghost predicate Ranked(p0: Lists, locals: set<Address>, slots: nat, popped: seq<Address>, waiting: set<Address>, level: nat) {
    && slots <= level
    && (forall a :: a in waiting ==> a in p0 && a !in locals && slots < Count(p0[a].items) <= level)
    && (forall a :: a in popped ==> a in p0 && a !in locals && level <= Count(p0[a].items))
    && (forall a :: a in p0 && a !in locals && slots < Count(p0[a].items) ==> a in waiting || a in popped)
    && (forall i, j :: 0 <= i < j < |popped| ==> popped[i] != popped[j])
    && (forall a :: a in popped ==> a !in waiting)
  }

  /** What account a keeps midway through a round, when those in done are one below the others. */
  ghost function Share(items: NonceMap, local: bool, lowered: bool, level: nat): NonceMap {
    if local then items else Lowest(items, if lowered && 0 < level then level - 1 else level)
  }

  ghost predicate Mixed(p0: Lists, p: Lists, locals: set<Address>, level: nat, done: seq<Address>) {
    && p.Keys == p0.Keys
    && forall a :: a in p0 ==> p[a].items == Share(p0[a].items, a in locals, a in done, level)
  }

  lemma ShareLowered(items: NonceMap, level: nat)
    requires 0 < level <= Count(items)
    ensures var share := Share(items, false, false, level);
            Count(share) == level && Share(items, false, true, level) == Lowest(share, level - 1)
  {
    hide Lowest;
    LowestFacts(items, level);
    LowestAgain(items, level, level - 1);
  }

  lemma RoundStep(p0: Lists, p: Lists, p': Lists, locals: set<Address>, level: nat, done: seq<Address>, o: Address)
    requires Mixed(p0, p, locals, level, done) && 0 < level
    requires o in p0 && o !in locals && o !in done && level <= Count(p0[o].items)
    requires p' - {o} == p - {o} && o in p'
    requires p'[o].items == Lowest(p[o].items, level - 1)
    ensures Mixed(p0, p', locals, level, done + [o])
  {
    hide Share, Lowest;
    ShareLowered(p0[o].items, level);
    KeysSame(p, p', o);
    forall a | a in p0 ensures p'[a].items == Share(p0[a].items, a in locals, a in done + [o], level) {
      if a != o {
        assert (p' - {o})[a] == (p - {o})[a];
      }
    }
  }

  lemma KeysSame(p: Lists, p': Lists, o: Address)
    requires p' - {o} == p - {o} && o in p && o in p'
    ensures p'.Keys == p.Keys
  {
    SameElsewhere(p, p', o);
  }

  /** A full round lowers the common level by one. */
  lemma RoundDone(p0: Lists, p: Lists, locals: set<Address>, level: nat, offs: seq<Address>)
    requires Mixed(p0, p, locals, level, offs) && 0 < level
    requires forall a :: a in p0 && a !in locals && level <= Count(p0[a].items) ==> a in offs
    ensures CutAt(p0, p, locals, level - 1)
  {
    forall a | a in p0 && a !in locals && a !in offs ensures Lowest(p0[a].items, level) == Lowest(p0[a].items, level - 1) {
    }
  }

  lemma RoundStart(p0: Lists, p: Lists, locals: set<Address>, level: nat)
    requires CutAt(p0, p, locals, level)
    ensures Mixed(p0, p, locals, level, [])
  {
  }

  /** A level that no remote account exceeds cuts nothing. */
  lemma CutNothing(p: Lists, locals: set<Address>, level: nat)
    requires forall a :: a in p && a !in locals ==> Count(p[a].items) <= level
    ensures CutAt(p, p, locals, level)
  {
  }

  lemma CountAtMostTotal(p: Lists, a: Address)
    requires a in p
    ensures Count(p[a].items) <= Total(p)
  {
    SumBounds(Lens(p), a);
  }

  /** Dropping the highest pending nonce of an account. */
  lemma TopFacts(p: Lists, q: Lists, all: set<Tx>, a: Address)
    requires Consistent(p, q, all, {}) && a in p && 1 < Count(p[a].items)
    ensures p[a].items != map[]
    ensures var tx := p[a].items[Max(p[a].items.Keys)]; var l := p[a].Cap(Count(p[a].items) - 1);
            && tx in all && tx.nonce == Max(p[a].items.Keys)
            && Consistent(p[a := l], q, all - {tx}, {})
            && l.items == Lowest(p[a].items, Count(p[a].items) - 1)
            && p[a := l] - {a} == p - {a}
  {
    hide Consistent, Shrinks, Txs;
    var items := p[a].items;
    var top := Max(items.Keys);
    var l := p[a].Cap(Count(items) - 1);
    PendingListOk(p, q, all, a);
    PendingPart(p, q, all, {}, a, items);
    ShrinksTop(p[a]);
    var none: NonceMap := map[];
    ShrinkPending(p, q, all, {}, a, l, none, {items[top]});
    NoTxs();
    assert {} + Txs(none) == {};
    LowestFacts(items, Count(items) - 1);
    assert Store(p, a, l) == p[a := l];
    InTxs(items, top);
  }

  lemma InTxs(items: NonceMap, n: nat)
    requires n in items
    ensures items[n] in Txs(items)
  {
  }

  lemma ShrinksTop(l: ListState)
    requires l.Valid() && l.items != map[]
    ensures Shrinks(l, l.Cap(Count(l.items) - 1), map[], {l.items[Max(l.items.Keys)]})
  {
    var k := Count(l.items) - 1;
    var top := Max(l.items.Keys);
    DroppingKeepsCaps(l, k);
    LowestFacts(l.items, k);
    TopIsLast(l.items);
    var gone := Gone(l, l.Cap(k).items);
    ValuesHold(gone);
    assert Holds(gone, l.items[top]);
    NoTxs();
  }

  /** Dropping the highest nonce is cutting the list below it. */
  lemma TopIsTail(items: NonceMap)
    requires 1 < Count(items)
    ensures items != map[] && Lowest(items, Count(items) - 1) == Below(items, Max(items.Keys))
  {
    TopIsLast(items);
    assert items - {Max(items.Keys)} == Below(items, Max(items.Keys));
  }

  lemma TopIsLast(items: NonceMap)
    requires items != map[]
    ensures Lowest(items, Count(items) - 1) == items - {Max(items.Keys)}
  {
  }

  lemma TopContiguous(items: NonceMap, lo: nat, hi: nat)
    requires Contiguous(items, lo, hi) && items != map[]
    ensures Contiguous(Lowest(items, Count(items) - 1), lo, hi - 1) && Max(items.Keys) == hi - 1
  {
    CapContiguous(items, lo, hi, Count(items) - 1);
    assert Max(items.Keys) in items && hi - 1 in items;
  }

  /** Among the waiting accounts there is a longest one. */
  predicate Longest(a: Address, s: set<Address>, p: Lists) {
    a in p && forall b :: b in s ==> b in p && Count(p[b].items) <= Count(p[a].items)
  }

  lemma {:induction false} LongestExists(s: set<Address>, p: Lists)
    requires s != {} && s <= p.Keys
    ensures exists a :: a in s && Longest(a, s, p)
    decreases s
  {
    var a :| a in s;
    var rest := s - {a};
    if rest == {} {
      assert s == {a};
      assert Longest(a, s, p);
    } else {
      LongestExists(rest, p);
      var b :| b in rest && Longest(b, rest, p);
      assert forall c :: c in s ==> c == a || c in rest;
      assert Longest(if Count(p[b].items) < Count(p[a].items) then a else b, s, p);
    }
  }

  lemma MixedCount(p0: Lists, p: Lists, locals: set<Address>, level: nat, done: seq<Address>, o: Address)
    requires Mixed(p0, p, locals, level, done) && 0 < level
    requires o in p0 && o !in locals && o !in done && level <= Count(p0[o].items)
    ensures o in p && Count(p[o].items) == level
  {
    ShareLowered(p0[o].items, level);
  }

  lemma OneFewer(p: Lists, p': Lists, o: Address, level: nat)
    requires p' - {o} == p - {o} && o in p && o in p' && Count(p[o].items) == level > 0
    requires p'[o].items == Lowest(p[o].items, level - 1)
    ensures Total(p) == Total(p') + 1
  {
    TotalChange(p, p', o);
    LowestFacts(p[o].items, level - 1);
  }

  /** The common state of the cutting loops. */
  ghost predicate Cutting(p0: Lists, p: Lists, locals: set<Address>, slots: nat, limit: nat,
                          popped: seq<Address>, waiting: set<Address>, level: nat) {
    && CutAt(p0, p, locals, level) && Ranked(p0, locals, slots, popped, waiting, level)
    && (p == p0 || TotalAt(p0, locals, level + 1) > limit)
  }

  lemma CuttingStart(p: Lists, locals: set<Address>, slots: nat, limit: nat, waiting: set<Address>)
    requires forall a :: a in waiting <==> a in p && a !in locals && slots < Count(p[a].items)
    ensures Cutting(p, p, locals, slots, limit, [], waiting, slots + Total(p))
  {
    forall a | a in p ensures Count(p[a].items) <= Total(p) {
      CountAtMostTotal(p, a);
    }
    CutNothing(p, locals, slots + Total(p));
  }

  /** The first offender sets the level to its own length. */
  lemma CuttingFirst(p: Lists, locals: set<Address>, slots: nat, limit: nat, waiting: set<Address>, level: nat, o: Address)
    requires Cutting(p, p, locals, slots, limit, [], waiting, level) && o in waiting && Longest(o, waiting, p)
    ensures Cutting(p, p, locals, slots, limit, [o], waiting - {o}, Count(p[o].items))
  {
    forall a | a in p && a !in locals ensures Count(p[a].items) <= Count(p[o].items) {
    }
    CutNothing(p, locals, Count(p[o].items));
  }

  /** Waiting accounts are still uncut. */
  lemma WaitingUncut(p0: Lists, p: Lists, locals: set<Address>, slots: nat, limit: nat, popped: seq<Address>,
                     waiting: set<Address>, level: nat, o: Address)
    requires Cutting(p0, p, locals, slots, limit, popped, waiting, level) && o in waiting
    ensures o in p && o in p0 && p[o].items == p0[o].items && slots < Count(p[o].items) <= level && waiting <= p.Keys
    ensures Longest(o, waiting, p) ==> Longest(o, waiting, p0)
  {
    forall a | a in waiting ensures a in p && p[a].items == p0[a].items {}
  }

  /** Popped accounts are cut to the level. */
  lemma PoppedCut(p0: Lists, p: Lists, locals: set<Address>, slots: nat, limit: nat, popped: seq<Address>,
                  waiting: set<Address>, level: nat, o: Address)
    requires Cutting(p0, p, locals, slots, limit, popped, waiting, level) && o in popped
    ensures o in p && Count(p[o].items) == level
  {
    LowestFacts(p0[o].items, level);
  }

  /** Above the length of the longest waiting account a round hits exactly the popped ones. */
  lemma RoundReady(p0: Lists, p: Lists, locals: set<Address>, slots: nat, limit: nat, popped: seq<Address>,
                   waiting: set<Address>, level: nat)
    requires Cutting(p0, p, locals, slots, limit, popped, waiting, level) && slots < level
    requires forall a :: a in waiting ==> Count(p0[a].items) < level
    ensures CutAt(p0, p, locals, level)
    ensures forall a :: a in popped ==> a in p0 && a !in locals && level <= Count(p0[a].items)
    ensures forall i, j :: 0 <= i < j < |popped| ==> popped[i] != popped[j]
    ensures forall a :: a in p0 && a !in locals && level <= Count(p0[a].items) ==> a in popped
  {
  }

  lemma CuttingLower(p0: Lists, p: Lists, p': Lists, locals: set<Address>, slots: nat, limit: nat, popped: seq<Address>,
                     waiting: set<Address>, level: nat)
    requires Cutting(p0, p, locals, slots, limit, popped, waiting, level) && slots < level && Total(p) > limit
    requires forall a :: a in waiting ==> Count(p0[a].items) < level
    requires CutAt(p0, p', locals, level - 1)
    ensures Cutting(p0, p', locals, slots, limit, popped, waiting, level - 1)
  {
    CutTotal(p0, p, locals, level);
  }

  /** Once the level has come down to its length, the next offender joins the popped ones. */
  lemma CuttingJoin(p0: Lists, p: Lists, locals: set<Address>, slots: nat, limit: nat, popped: seq<Address>,
                    waiting: set<Address>, level: nat, o: Address)
    requires Cutting(p0, p, locals, slots, limit, popped, waiting, level) && o in waiting && Longest(o, waiting, p0)
    requires Count(p0[o].items) == level
    ensures Cutting(p0, p, locals, slots, limit, popped + [o], waiting - {o}, level)
  {
    var more := popped + [o];
    assert forall a :: a in more <==> a in popped || a == o;
  }

  lemma LongestBelow(p0: Lists, waiting: set<Address>, o: Address, level: nat)
    requires Longest(o, waiting, p0) && o in p0 && Count(p0[o].items) < level
    ensures forall a :: a in waiting ==> a in p0 && Count(p0[a].items) < level
  {
  }

  /** What the cut promises: a level no lower than the guaranteed slots, low enough for the limit
      unless it is the guarantee itself, and not lower than the limit asks for. */
  ghost predicate Fair(p0: Lists, p: Lists, locals: set<Address>, slots: nat, limit: nat, level: nat) {
    && slots <= level && CutAt(p0, p, locals, level)
    && (Total(p) <= limit || level == slots)
    && (p == p0 || TotalAt(p0, locals, level + 1) > limit)
  }

  lemma FairDone(p0: Lists, p: Lists, locals: set<Address>, slots: nat, limit: nat, popped: seq<Address>,
                 waiting: set<Address>, level: nat)
    requires Cutting(p0, p, locals, slots, limit, popped, waiting, level)
    requires Total(p) <= limit || level == slots
    ensures Fair(p0, p, locals, slots, limit, level)
  {
  }

  lemma FairNothing(p: Lists, locals: set<Address>, slots: nat, limit: nat)
    requires forall a :: a in p && a !in locals ==> Count(p[a].items) <= slots
    ensures Fair(p, p, locals, slots, limit, slots)
  {
    CutNothing(p, locals, slots);
  }

  lemma NobodyWaiting(p: Lists, locals: set<Address>, slots: nat, limit: nat, level: nat)
    requires Cutting(p, p, locals, slots, limit, [], {}, level)
    ensures forall a :: a in p && a !in locals ==> Count(p[a].items) <= slots
  {
  }

  lemma SlotsBelow(p0: Lists, p: Lists, locals: set<Address>, slots: nat, limit: nat, popped: seq<Address>,
                   waiting: set<Address>, level: nat)
    requires Cutting(p0, p, locals, slots, limit, popped, waiting, level)
    ensures slots <= level
  {
  }

  lemma FairLimits(p0: Lists, p: Lists, locals: set<Address>, slots: nat, limit: nat, level: nat)
    requires Fair(p0, p, locals, slots, limit, level)
    ensures Total(p) <= limit || forall a :: a in p && a !in locals ==> Count(p[a].items) <= slots
  {
    forall a | a in p && a !in locals ensures Count(p[a].items) <= level {
      LowestFacts(p0[a].items, level);
    }
  }

  /** A cut never empties a list. */
  lemma FairEmpty(p0: Lists, p: Lists, locals: set<Address>, slots: Positive, limit: nat, level: nat, b: Address)
    requires Fair(p0, p, locals, slots, limit, level) && Items(p, b) == map[]
    ensures Items(p0, b) == map[]
  {
    if b in p0 {
      LowestFacts(p0[b].items, level);
    }
  }

  lemma LastIsNext(items: NonceMap, lo: nat, hi: nat)
    requires Contiguous(items, lo, hi) && items != map[]
    ensures Max(items.Keys) + 1 == hi
  {
    TopContiguous(items, lo, hi);
  }
}
