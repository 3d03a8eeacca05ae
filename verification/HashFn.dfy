/** The block hash function of the virtual machine: ancestors of a block by height, found by walking
    parents once and remembering the way (core/evm.go). */
module HashFn {
  import opened Collections
  import opened Chain

  /** All headers between height n and a block are known. */
  ghost predicate Walkable(headers: set<Block>, ref: Block, n: nat) {
    forall m: nat :: n < m < Number(ref) ==> Chain.At(ref, m) in headers
  }

  /** The answer of a walk without a cache: the ancestor's hash, or nothing at and above the block
      and beyond a missing header. */
  ghost function Walk(headers: set<Block>, ref: Block, n: nat): Option<Block> {
    if n < Number(ref) && Walkable(headers, ref, n) then Some(At(ref, n)) else None
  }

  /** What the cache holds at a position: the ancestor that far below the parent, and after genesis
      nothing. */
  ghost function Entry(ref: Block, i: nat): Option<Block> {
    if i < Number(ref) then Some(At(ref, Number(ref) - 1 - i)) else None
  }

  ghost predicate CacheOk(headers: set<Block>, ref: Block, cache: seq<Option<Block>>) {
    && |cache| <= Number(ref) + 1
    && (forall i :: 0 <= i < |cache| ==> cache[i] == Entry(ref, i))
    && (forall m: nat :: m < Number(ref) && Number(ref) - m < |cache| ==> At(ref, m) in headers)
  }

  lemma FirstEntry(ref: Block)
    ensures Entry(ref, 0) == ParentOf(ref)
  {
    if ref.Child? {
      AtSelf(ref.parent);
    }
  }

  lemma EntryParent(ref: Block, i: nat)
    requires i < Number(ref)
    ensures var b := Entry(ref, i).value; Number(b) == Number(ref) - 1 - i && ParentOf(b) == Entry(ref, i + 1)
  {
    AtFacts(ref, Number(ref) - 1 - i);
  }

  lemma NextEntry(headers: set<Block>, ref: Block, cache: seq<Option<Block>>)
    requires CacheOk(headers, ref, cache) && cache != []
    ensures var last := cache[|cache| - 1];
            last.Some? ==>
              && |cache| <= Number(ref) && last.value == At(ref, Number(ref) - |cache|) && Number(last.value) == Number(ref) - |cache|
              && (last.value in headers ==> CacheOk(headers, ref, cache + [ParentOf(last.value)]))
  {
    hide At, Number, ParentOf, CacheOk;
    LastEntry(headers, ref, cache);
    var last := cache[|cache| - 1];
    if last.Some? {
      EntryParent(ref, |cache| - 1);
      if last.value in headers {
        Extended(headers, ref, cache);
      }
    }
  }

  lemma LastEntry(headers: set<Block>, ref: Block, cache: seq<Option<Block>>)
    requires CacheOk(headers, ref, cache) && cache != []
    ensures cache[|cache| - 1] == Entry(ref, |cache| - 1)
  {
  }

  lemma Extended(headers: set<Block>, ref: Block, cache: seq<Option<Block>>)
    requires CacheOk(headers, ref, cache) && cache != [] && |cache| <= Number(ref) && At(ref, Number(ref) - |cache|) in headers
    ensures CacheOk(headers, ref, cache + [Entry(ref, |cache|)])
  {
    hide At, Number, ParentOf, Entry;
    forall m: nat | m < Number(ref) && Number(ref) - m < |cache| + 1
      ensures At(ref, m) in headers
    {
      if Number(ref) - m == |cache| {
        assert m == Number(ref) - |cache|;
      }
    }
  }

  lemma Cached(headers: set<Block>, ref: Block, cache: seq<Option<Block>>, n: nat)
    requires CacheOk(headers, ref, cache) && n < TWO64 && Number(ref) < TWO64
    requires (Number(ref) - n - 1) % TWO64 < |cache|
    ensures cache[(Number(ref) - n - 1) % TWO64] == Walk(headers, ref, n)
  {
    if n < Number(ref) {
      assert (Number(ref) - n - 1) % TWO64 == Number(ref) - n - 1;
    } else {
      assert (Number(ref) - n - 1) % TWO64 == Number(ref) - n - 1 + TWO64;
    }
  }

  /** The walk has stopped short of the height asked for. */
  lemma Stopped(headers: set<Block>, ref: Block, cache: seq<Option<Block>>, n: nat)
    requires CacheOk(headers, ref, cache) && cache != []
    requires cache[|cache| - 1] == None || cache[|cache| - 1].value !in headers
    requires n < Number(ref) ==> |cache| < Number(ref) - n
    ensures Walk(headers, ref, n) == None
  {
    if n < Number(ref) {
      assert cache[|cache| - 1] == Entry(ref, |cache| - 1);
      assert At(ref, Number(ref) - |cache|) !in headers;
    }
  }

  class HashFunction {
    const ref: Block
    const headers: set<Block>
    var cache: seq<Option<Block>>

    ghost predicate Valid()
      reads this
    {
      Number(ref) < TWO64 && CacheOk(headers, ref, cache)
    }

    constructor (ref: Block, headers: set<Block>)
      requires Number(ref) < TWO64
      ensures Valid() && this.ref == ref && this.headers == headers
    {
      this.ref, this.headers, cache := ref, headers, [];
    }

    /** Answers from the cache or extends it; either way as the plain walk would. */
    method GetHash(n: nat) returns (r: Option<Block>)
      requires Valid() && n < TWO64
      modifies this`cache
      ensures Valid() && r == Walk(headers, ref, n)
    {
      hide Number, At, CacheOk, Walk, Entry;
      if |cache| == 0 {
        Begin(headers, ref);
        cache := [ParentOf(ref)];
      }
      var idx := (Number(ref) - n - 1) % TWO64;
      if idx < |cache| {
        Cached(headers, ref, cache, n);
        return cache[idx];
      }
      Beyond(ref, n, |cache|);
      var last := cache[|cache| - 1];
      while true
        invariant Valid() && cache != [] && last == cache[|cache| - 1]
        invariant n < Number(ref) ==> |cache| < Number(ref) - n
        decreases Number(ref) + 1 - |cache|
      {
        NextEntry(headers, ref, cache);
        if last == None || last.value !in headers {
          break;
        }
        var number := (Number(last.value) - 1) % TWO64;
        Wrap(ref, Number(last.value), n);
        cache := cache + [ParentOf(last.value)];
        last := ParentOf(last.value);
        if n == number {
          Arrived(headers, ref, cache, n);
          return last;
        }
      }
      Stopped(headers, ref, cache, n);
      r := None;
    }

    /** Every answer in any sequence of queries is the plain walk's. */
    method GetHashes(ns: seq<nat>) returns (rs: seq<Option<Block>>)
      requires Valid() && forall n :: n in ns ==> n < TWO64
      modifies this`cache
      ensures Valid() && |rs| == |ns| && forall i :: 0 <= i < |ns| ==> rs[i] == Walk(headers, ref, ns[i])
    {
      rs := [];
      for i := 0 to |ns|
        invariant Valid() && |rs| == i && forall j :: 0 <= j < i ==> rs[j] == Walk(headers, ref, ns[j])
      {
        assert ns[i] in ns;
        var r := GetHash(ns[i]);
        rs := rs + [r];
      }
    }
  }

  lemma Begin(headers: set<Block>, ref: Block)
    ensures CacheOk(headers, ref, [ParentOf(ref)])
  {
    FirstEntry(ref);
  }

  lemma Beyond(ref: Block, n: nat, length: nat)
    requires Number(ref) < TWO64 && n < TWO64 && (Number(ref) - n - 1) % TWO64 >= length
    ensures n < Number(ref) ==> length < Number(ref) - n
  {
    if n < Number(ref) {
      assert (Number(ref) - n - 1) % TWO64 == Number(ref) - n - 1;
    }
  }

  lemma Wrap(ref: Block, number: nat, n: nat)
    requires number < Number(ref) < TWO64 && n < TWO64
    ensures (number - 1) % TWO64 == if number == 0 then TWO64 - 1 else number - 1
  {
  }

  /** The walk has reached the height asked for, or fell off genesis at the highest height. */
  lemma Arrived(headers: set<Block>, ref: Block, cache: seq<Option<Block>>, n: nat)
    requires CacheOk(headers, ref, cache) && cache != [] && Number(ref) < TWO64
    requires n == if |cache| == Number(ref) + 1 then TWO64 - 1 else Number(ref) - |cache|
    ensures cache[|cache| - 1] == Walk(headers, ref, n)
  {
    assert cache[|cache| - 1] == Entry(ref, |cache| - 1);
  }
}
