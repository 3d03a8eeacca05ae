/** What a new head makes of an account's two lists, told from the nonces alone: which transactions
    stand as pending, which wait in the queue, and that none that could still be executed is lost
    (core/tx_pool.go). */
module Rebuilding {
  import opened Collections
  import opened TxTypes
  import opened List
  import opened PoolModel
  import opened Promotion
  import opened Demotion

  /** What an account's transactions are measured by. */
  datatype Bar = Bar(nonce: nat, balance: int, maxGas: nat)

  /** Nonce n is held by a transaction the chain has not seen and the account can pay for. */
  ghost predicate Current(items: NonceMap, bar: Bar, n: nat) {
    n in items && bar.nonce <= n && !Unpayable(bar.balance, bar.maxGas)(items[n])
  }

  /** The least current nonce, if the virtual nonce reaches it. */
  ghost predicate Starts(q: NonceMap, bar: Bar, virtual: nat, lo: nat) {
    lo <= virtual && Current(q, bar, lo) && forall m: nat :: Current(q, bar, m) ==> lo <= m
  }

  ghost predicate Unbroken(q: NonceMap, bar: Bar, lo: nat, n: nat) {
    forall m: nat :: lo <= m <= n ==> Current(q, bar, m)
  }

  /** Nonce n belongs to the unbroken run of current nonces from the least one. */
  ghost predicate Runs(q: NonceMap, bar: Bar, virtual: nat, n: nat) {
    exists lo: nat :: Starts(q, bar, virtual, lo) && lo <= n && Unbroken(q, bar, lo, n)
  }

  /** What a queue hands over, and what stays in it before its limit applies. */
  ghost function Ran(q: NonceMap, bar: Bar, virtual: nat): NonceMap {
    map n | n in q && Runs(q, bar, virtual, n) :: q[n]
  }

  ghost function Waiting(q: NonceMap, bar: Bar, virtual: nat): NonceMap {
    map n | n in q && Current(q, bar, n) && !Runs(q, bar, virtual, n) :: q[n]
  }

  ghost function Limited(items: NonceMap, limit: Option<nat>): NonceMap {
    if limit.Some? then Lowest(items, limit.value) else items
  }

  /** What stands as pending: with the chain's next nonce listed, everything current before the first
      unpayable one. */
  ghost function Standing(listed: NonceMap, bar: Bar): NonceMap {
    map n | n in listed && bar.nonce in listed && Kept(listed, bar.nonce, n, bar.balance, bar.maxGas) :: listed[n]
  }

  /** What is listed and current but does not stand. */
  ghost function Returned(listed: NonceMap, bar: Bar): NonceMap {
    map n | n in listed && Current(listed, bar, n) && n !in Standing(listed, bar) :: listed[n]
  }

  /** The two lists of an account before and after. */
  ghost predicate Rebuilt(p: NonceMap, q: NonceMap, virtual: nat, bar: Bar, limit: Option<nat>, p': NonceMap, q': NonceMap) {
    var listed := p + Ran(q, bar, virtual);
    p' == Standing(listed, bar) && q' == Limited(Waiting(q, bar, virtual), limit) + Returned(listed, bar)
  }

  lemma {:induction false} RunIs(items: NonceMap, lo: nat, n: nat)
    requires lo in items
    ensures n in Run(items, lo) <==> lo <= n && forall m :: lo <= m <= n ==> m in items
  {
    RunFacts(items, lo);
    var end := lo + RunLength(items, lo);
    if end <= n {
      assert end !in items && lo <= end <= n;
    }
  }

  /** The current transactions of a queue, as its filters leave them. */
  lemma CurrentItems(l: ListState, bar: Bar)
    requires l.Valid() && !l.strict
    ensures var items := l.Forward(bar.nonce).Filter(bar.balance, bar.maxGas).list.items;
            forall n :: (n in items <==> Current(l.items, bar, n)) && (n in items ==> items[n] == l.items[n])
  {
    hide Unpayable, ListState.Filter;
    DroppingKeepsCaps(l, bar.nonce);
    FilterLoose(l.Forward(bar.nonce), bar.balance, bar.maxGas);
  }

  /** Promotion hands over exactly the run and keeps exactly the others, up to the limit. */
  lemma PromoteIs(l: ListState, bar: Bar, virtual: nat, limit: Option<nat>)
    requires l.Valid() && !l.strict
    ensures var pr := Promote(l, bar.nonce, bar.balance, bar.maxGas, virtual, limit);
            pr.readies == Ran(l.items, bar, virtual) && pr.list.items == Limited(Waiting(l.items, bar, virtual), limit)
  {
    hide ListState.Filter, ListState.Forward, ListState.Valid, Current, Runs, Ready;
    CurrentItems(l, bar);
    var items := l.Forward(bar.nonce).Filter(bar.balance, bar.maxGas).list.items;
    forall n ensures n in Ready(items, virtual) <==> Runs(l.items, bar, virtual, n) {
      ReadyIs(items, l.items, bar, virtual, n);
    }
    ReadyPart(items, virtual);
    forall n | Runs(l.items, bar, virtual, n) ensures Current(l.items, bar, n) && n in l.items {
      assert n in Ready(items, virtual);
      CurrentIn(l.items, bar, n);
    }
    forall n | n in items ensures n in l.items { CurrentIn(l.items, bar, n); }
    assert Ready(items, virtual) == Ran(l.items, bar, virtual);
    assert items - Ready(items, virtual).Keys == Waiting(l.items, bar, virtual);
  }

  lemma CurrentIn(items: NonceMap, bar: Bar, n: nat)
    requires Current(items, bar, n)
    ensures n in items && bar.nonce <= n
  {
  }

  lemma ReadyPart(items: NonceMap, virtual: nat)
    ensures forall n :: n in Ready(items, virtual) ==> n in items && Ready(items, virtual)[n] == items[n]
  {
  }

  lemma ReadyIs(items: NonceMap, q: NonceMap, bar: Bar, virtual: nat, n: nat)
    requires forall m :: m in items <==> Current(q, bar, m)
    ensures n in Ready(items, virtual) <==> Runs(q, bar, virtual, n)
  {
    hide Current, Run;
    if Runs(q, bar, virtual, n) {
      var s: nat :| Starts(q, bar, virtual, s) && s <= n && Unbroken(q, bar, s, n);
      assert s in items && s == Min(items.Keys);
    }
    if items != map[] {
      var lo := Min(items.Keys);
      assert lo in items && forall m :: m in items ==> lo <= m;
      RunIs(items, lo, n);
      if lo <= virtual {
        assert Starts(q, bar, virtual, lo);
        assert n in Run(items, lo) <==> lo <= n && Unbroken(q, bar, lo, n);
      }
    }
  }

  /** Demotion keeps exactly what stands and returns exactly the other current ones. */
  lemma DemoteIs(l: ListState, bar: Bar)
    requires l.Valid() && l.strict
    ensures var dm := Demote(l, bar.nonce, bar.balance, bar.maxGas);
            dm.list.items == Standing(l.items, bar) && dm.invalids + dm.gapped == Returned(l.items, bar)
  {
    hide Demote, ListState.Valid, Kept, Current, Unpayable;
    var dm := Demote(l, bar.nonce, bar.balance, bar.maxGas);
    DemoteKeeps(l, bar.nonce, bar.balance, bar.maxGas);
    DemoteSplits(l, bar);
    forall n ensures Kept(l.items, bar.nonce, n, bar.balance, bar.maxGas) ==> n in l.items && Current(l.items, bar, n)
             ensures bar.nonce in l.items && Kept(l.items, bar.nonce, n, bar.balance, bar.maxGas) ==>
                       Kept(l.items, bar.nonce, bar.nonce, bar.balance, bar.maxGas)
             ensures Current(l.items, bar, n) ==> n in l.items
             ensures Kept(l.items, bar.nonce, bar.nonce, bar.balance, bar.maxGas) ==> bar.nonce in l.items {
      KeptCurrent(l.items, bar, n);
    }
    assert dm.list.items == Standing(l.items, bar);
    assert dm.invalids + dm.gapped == Returned(l.items, bar);
  }

  lemma KeptCurrent(items: NonceMap, bar: Bar, n: nat)
    ensures Kept(items, bar.nonce, n, bar.balance, bar.maxGas) ==> n in items && Current(items, bar, n)
    ensures bar.nonce in items && Kept(items, bar.nonce, n, bar.balance, bar.maxGas) ==>
              Kept(items, bar.nonce, bar.nonce, bar.balance, bar.maxGas)
    ensures Current(items, bar, n) ==> n in items
    ensures Kept(items, bar.nonce, bar.nonce, bar.balance, bar.maxGas) ==> bar.nonce in items
  {
    hide Unpayable;
  }

  /** Between them, what demotion keeps for now and what it passes on are all the current ones. */
  lemma DemoteSplits(l: ListState, bar: Bar)
    requires l.Valid() && l.strict
    ensures var dm := Demote(l, bar.nonce, bar.balance, bar.maxGas);
            && (forall n :: n in dm.invalids <==> Current(l.items, bar, n) && n !in dm.rest.items)
            && (forall n :: n in dm.invalids ==> n in l.items && dm.invalids[n] == l.items[n])
            && (forall n :: n in dm.rest.items ==> n in l.items && dm.rest.items[n] == l.items[n])
            && dm.gapped == if Gapped(dm.rest.items, bar.nonce) then dm.rest.items else map[]
  {
    hide ListState.Filter, Unpayable, ListState.Valid, ListState.Cap;
    ForwardOk(l, bar.nonce);
    FilterExact(l.Forward(bar.nonce), bar.balance, bar.maxGas);
  }

  /** An account that was promoted and then demoted. */
  lemma RebuiltBy(p: NonceMap, l: ListState, virtual: nat, bar: Bar, limit: Option<nat>, mid: ListState)
    requires l.Valid() && !l.strict && mid.Valid() && mid.strict
    requires mid.items == p + Promote(l, bar.nonce, bar.balance, bar.maxGas, virtual, limit).readies
    ensures var pr := Promote(l, bar.nonce, bar.balance, bar.maxGas, virtual, limit);
            var dm := Demote(mid, bar.nonce, bar.balance, bar.maxGas);
            Rebuilt(p, l.items, virtual, bar, limit, dm.list.items, pr.list.items + dm.invalids + dm.gapped)
  {
    hide Promote, Demote, ListState.Valid, Ran, Waiting, Standing, Returned, Limited;
    PromoteIs(l, bar, virtual, limit);
    DemoteIs(mid, bar);
    var pr := Promote(l, bar.nonce, bar.balance, bar.maxGas, virtual, limit);
    var dm := Demote(mid, bar.nonce, bar.balance, bar.maxGas);
    assert pr.list.items + dm.invalids + dm.gapped == pr.list.items + (dm.invalids + dm.gapped);
  }

  lemma RebuiltNone(p: NonceMap, l: ListState, virtual: nat, bar: Bar, limit: Option<nat>)
    requires l.Valid() && !l.strict
    requires p + Promote(l, bar.nonce, bar.balance, bar.maxGas, virtual, limit).readies == map[]
    ensures Rebuilt(p, l.items, virtual, bar, limit, map[], Promote(l, bar.nonce, bar.balance, bar.maxGas, virtual, limit).list.items)
  {
    hide Promote, ListState.Valid, Ran, Waiting, Limited;
    PromoteIs(l, bar, virtual, limit);
    assert Standing(map[], bar) == map[] && Returned(map[], bar) == map[];
  }

  /** At a new head the virtual nonce is the chain's, and a queued transaction is promoted exactly when
      all nonces from the chain's up to its own are queued and payable. */
  lemma FreshRun(q: NonceMap, bar: Bar, n: nat)
    ensures Runs(q, bar, bar.nonce, n) <==> bar.nonce <= n && Unbroken(q, bar, bar.nonce, n)
  {
    if bar.nonce <= n && Unbroken(q, bar, bar.nonce, n) {
      assert Starts(q, bar, bar.nonce, bar.nonce);
    }
  }

  /** Nothing that could still be executed is lost: it is pending or queued afterwards, unless it
      waits beyond the limit of its queue. Nothing else is kept, and nothing new appears. */
  lemma NothingLost(p: NonceMap, q: NonceMap, virtual: nat, bar: Bar, limit: Option<nat>, p': NonceMap, q': NonceMap, n: nat)
    requires Rebuilt(p, q, virtual, bar, limit, p', q') && p.Keys !! q.Keys
    ensures Current(p, bar, n) ==> (n in p' && p'[n] == p[n]) || (n in q' && q'[n] == p[n])
    ensures Current(q, bar, n) ==>
              || (n in p' && p'[n] == q[n]) || (n in q' && q'[n] == q[n])
              || (n in Waiting(q, bar, virtual) && n !in Limited(Waiting(q, bar, virtual), limit))
    ensures n in p' || n in q' ==> Current(p, bar, n) || Current(q, bar, n)
    ensures n !in p' || n !in q'
  {
    hide Runs, Unpayable, Lowest;
    var listed := p + Ran(q, bar, virtual);
    var waiting := Waiting(q, bar, virtual);
    if limit.Some? {
      LowestFacts(waiting, limit.value);
    }
    KeptCurrent(listed, bar, n);
    RunsCurrent(q, bar, virtual, n);
  }

  lemma RunsCurrent(q: NonceMap, bar: Bar, virtual: nat, n: nat)
    ensures Runs(q, bar, virtual, n) ==> Current(q, bar, n)
  {
    if Runs(q, bar, virtual, n) {
      var lo: nat :| Starts(q, bar, virtual, lo) && lo <= n && Unbroken(q, bar, lo, n);
    }
  }

  /** With a fresh virtual nonce and only older nonces pending, exactly the payable run of the queue
      from the chain's nonce becomes pending. */
  lemma QueueTakesOver(p: NonceMap, q: NonceMap, bar: Bar, limit: Option<nat>, p': NonceMap, q': NonceMap, n: nat)
    requires Rebuilt(p, q, bar.nonce, bar, limit, p', q') && forall m :: m in p ==> m < bar.nonce
    ensures n in p' <==> bar.nonce <= n && Unbroken(q, bar, bar.nonce, n)
  {
    hide Runs, Unpayable, Waiting, Limited, Returned;
    FreshRun(q, bar, n);
    FreshRun(q, bar, bar.nonce);
    var listed := p + Ran(q, bar, bar.nonce);
    forall m: nat ensures Runs(q, bar, bar.nonce, m) ==> Current(q, bar, m) {
      RunsCurrent(q, bar, bar.nonce, m);
    }
    forall m | m in listed && bar.nonce <= m ensures m in q && listed[m] == q[m] && Current(q, bar, m) {
    }
    if bar.nonce <= n && Unbroken(q, bar, bar.nonce, n) {
      assert Current(q, bar, n) && Current(q, bar, bar.nonce) && Unbroken(q, bar, bar.nonce, bar.nonce);
      assert n in listed && bar.nonce in listed;
    }
  }

  /** With the chain's nonce pending, exactly the pending transactions from it up to the first
      unpayable one stay, and the queue hands over nothing. */
  lemma PendingStays(p: NonceMap, q: NonceMap, bar: Bar, limit: Option<nat>, p': NonceMap, q': NonceMap, n: nat)
    requires Rebuilt(p, q, bar.nonce, bar, limit, p', q') && bar.nonce in p && p.Keys !! q.Keys
    ensures n in p' <==> Kept(p, bar.nonce, n, bar.balance, bar.maxGas)
  {
    hide Runs, Unpayable, Kept, Current, Waiting, Limited, Returned;
    NoneRuns(q, bar);
    assert Ran(q, bar, bar.nonce) == map[];
    assert p + Ran(q, bar, bar.nonce) == p;
    KeptCurrent(p, bar, n);
  }

  lemma NoneRuns(q: NonceMap, bar: Bar)
    requires bar.nonce !in q
    ensures forall n: nat :: !Runs(q, bar, bar.nonce, n)
  {
    forall n: nat ensures !Runs(q, bar, bar.nonce, n) {
      FreshRun(q, bar, n);
      assert bar.nonce <= n && Unbroken(q, bar, bar.nonce, n) ==> Current(q, bar, bar.nonce);
    }
  }
}
