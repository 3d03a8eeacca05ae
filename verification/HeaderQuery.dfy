/** Answering a peer's header query (eth/handler.go, GetBlockHeadersMsg). */
module Query {
  import opened Collections
  import opened Chain
  import opened Headers

  const MAX_HEADER_FETCH := 192
  const SOFT_RESPONSE_LIMIT := 2 * 1024 * 1024
  const EST_HEADER_RLP_SIZE := 500
  const MAX_NON_CANONICAL := 100

  /** The conversion of an unsigned 64-bit amount to a signed one. */
  function ToInt(amount: nat): int {
    if amount < TWO64 / 2 then amount else amount - TWO64
  }

  /** How many headers a reply may hold: the byte limit never binds. */
  function Limit(amount: nat): nat {
    if ToInt(amount) <= 0 then 0 else if amount < MAX_HEADER_FETCH then amount else MAX_HEADER_FETCH
  }

  /** An amount is read as signed: from half the range up it asks for nothing. Below that, at most 192
      headers are sent. */
  lemma LimitExact(amount: nat)
    requires amount < TWO64
    ensures -(TWO64 / 2) <= ToInt(amount) < TWO64 / 2 && ToInt(amount) % TWO64 == amount
    ensures Limit(amount) == if amount >= TWO64 / 2 then 0 else Lesser(amount, 192)
  {
  }

  /** b follows a in the direction asked for, on one chain, skipping exactly skip blocks. */
  ghost predicate Follows(a: Block, b: Block, skip: nat, reverse: bool) {
    if reverse then Number(b) + skip + 1 == Number(a) && IsAncestor(b, a)
    else Number(a) + skip + 1 == Number(b) && IsAncestor(a, b)
  }

  ghost predicate Spaced(headers: seq<Block>, skip: nat, reverse: bool) {
    forall i :: 0 <= i < |headers| - 1 ==> Follows(headers[i], headers[i + 1], skip, reverse)
  }

  /** Whether the canonical chain has a block that far on. */
  ghost predicate HasNext(current: Block, b: Block, skip: nat, reverse: bool) {
    if reverse then skip + 1 <= Number(b) else Number(b) + skip + 1 <= Number(current)
  }

  ghost predicate Heights64(hc: HeaderChain)
    reads hc
  {
    forall b :: b in hc.store ==> Number(b) < TWO64
  }

  /** The header after a given one in a query that started from a hash. */
  method NextByHash(hc: HeaderChain, hash: Block, skip: nat, reverse: bool, budget: nat) returns (r: Option<Block>, left: nat)
    requires hc.Valid() && Heights64(hc) && hash in hc.store && skip < TWO64
    modifies hc`headerCache
    ensures hc.Cached() && left <= budget
    ensures r.Some? ==> r.value in hc.store && Follows(hash, r.value, skip, reverse)
    ensures hc.IsCanonical(hash) ==>
              (r.Some? <==> HasNext(hc.current, hash, skip, reverse)) && (r.Some? ==> hc.IsCanonical(r.value)) && left == budget
    ensures !hc.IsCanonical(hash) && !reverse ==> r == None
    ensures reverse && Detour(hc.canon, hash) <= budget ==>
              (r.Some? <==> skip + 1 <= Number(hash)) && (r.Some? ==> Detour(hc.canon, r.value) <= left)
  {
    hide PathIndex, Tree, At, Number, Detour, IsAncestor;
    if reverse {
      r, left := Towards(hc, hash, skip, budget);
    } else {
      r, left := Ahead(hc, hash, skip, budget);
    }
  }

  lemma StepOf(n: nat, skip: nat)
    requires n < TWO64 && skip < TWO64
    ensures (skip + 1) % TWO64 == if skip + 1 == TWO64 then 0 else skip + 1
    ensures (n + skip + 1) % TWO64 == if n + skip + 1 < TWO64 then n + skip + 1 else n + skip + 1 - TWO64
  {
  }

  /** Towards genesis: the ancestor that far up. */
  method Towards(hc: HeaderChain, hash: Block, skip: nat, budget: nat) returns (r: Option<Block>, left: nat)
    requires hc.Valid() && Heights64(hc) && hash in hc.store && skip < TWO64
    modifies hc`headerCache
    ensures hc.Cached() && left <= budget
    ensures r.Some? ==> r.value in hc.store && skip + 1 <= Number(hash) && r.value == Up(hash, skip + 1) && Follows(hash, r.value, skip, true)
    ensures hc.IsCanonical(hash) ==>
              (r.Some? <==> skip + 1 <= Number(hash)) && (r.Some? ==> hc.IsCanonical(r.value)) && left == budget
    ensures Detour(hc.canon, hash) <= budget ==>
              (r.Some? <==> skip + 1 <= Number(hash)) && (r.Some? ==> Detour(hc.canon, r.value) <= left)
  {
    hide PathIndex, Tree, At, Number, Detour, Linked, IsAncestor;
    assert Number(hash) < TWO64;
    StepOf(Number(hash), skip);
    left := budget;
    var ancestor := (skip + 1) % TWO64;
    if ancestor == 0 {
      return None, left;
    }
    r, left := hc.GetAncestor(hash, ancestor, budget);
    UpFacts(hc, hash, ancestor);
    if ancestor <= Number(hash) {
      PathIsLinked(hc.canon, hc.current);
      DetourUp(hc.canon, hash, ancestor);
    }
  }

  /** Towards the head: the canonical header that far up, if it descends from the given one. */
  method Ahead(hc: HeaderChain, hash: Block, skip: nat, budget: nat) returns (r: Option<Block>, left: nat)
    requires hc.Valid() && Heights64(hc) && hash in hc.store && skip < TWO64
    modifies hc`headerCache
    ensures hc.Cached() && left <= budget
    ensures r.Some? ==> r.value in hc.store && Follows(hash, r.value, skip, false)
    ensures hc.IsCanonical(hash) ==>
              (r.Some? <==> Number(hash) + skip + 1 <= Number(hc.current)) && (r.Some? ==> hc.IsCanonical(r.value)) && left == budget
    ensures !hc.IsCanonical(hash) ==> r == None
  {
    hide PathIndex, Tree, At, Number, Detour, Linked, IsAncestor;
    assert Number(hash) < TWO64;
    StepOf(Number(hash), skip);
    Heights(hc);
    left := budget;
    var next := (Number(hash) + skip + 1) % TWO64;
    if next <= Number(hash) {
      return None, left;
    }
    r := hc.GetHeaderByNumber(next);
    if r == None {
      return None, left;
    }
    var expected;
    expected, left := hc.GetAncestor(r.value, (skip + 1) % TWO64, budget);
    UpFacts(hc, r.value, skip + 1);
    if expected != Some(hash) {
      if hc.IsCanonical(hash) {
        SameHeight(hc, hash, expected.value);
      }
      r := None;
    }
  }

  lemma UpParent(b: Block, k: nat)
    requires 0 < k <= Number(b)
    ensures b.Child? && Number(b) == Number(b.parent) + 1 && Up(b, k) == Up(b.parent, k - 1)
  {
    AtFacts(b, Number(b) - k);
  }

  lemma UpNone(b: Block)
    ensures Up(b, 0) == b
  {
    AtSelf(b);
  }

  lemma DetourUnfold(canon: map<nat, Block>, b: Block)
    requires b.Child?
    ensures Detour(canon, b) == if OnIndex(canon, b) then 0 else 1 + Detour(canon, b.parent)
  {
  }

  lemma OnIndexParent(canon: map<nat, Block>, b: Block)
    requires Linked(canon) && OnIndex(canon, b) && b.Child?
    ensures OnIndex(canon, b.parent) && Detour(canon, b.parent) == 0
  {
    AtFacts(b, Number(b) - 1);
    AtSelf(b.parent);
  }

  /** Every generation walked towards the canonical chain shortens the detour by one. */
  lemma {:induction false} DetourUp(canon: map<nat, Block>, b: Block, k: nat)
    requires k <= Number(b) && Linked(canon)
    ensures Detour(canon, Up(b, k)) == if k < Detour(canon, b) then Detour(canon, b) - k else 0
    decreases k
  {
    hide Detour, Number, At, OnIndex, Linked, Up;
    if k == 0 {
      UpNone(b);
    } else {
      UpParent(b, k);
      DetourUp(canon, b.parent, k - 1);
      DetourUnfold(canon, b);
      if OnIndex(canon, b) {
        OnIndexParent(canon, b);
      }
    }
  }

  lemma Heights(hc: HeaderChain)
    requires hc.Valid() && Heights64(hc)
    ensures Number(hc.current) < TWO64
  {
  }

  lemma SameHeight(hc: HeaderChain, a: Block, b: Block)
    requires hc.IsCanonical(a) && hc.IsCanonical(b) && Number(a) == Number(b)
    ensures a == b
  {
  }

  lemma UpFacts(hc: HeaderChain, b: Block, k: nat)
    requires hc.Valid() && b in hc.store
    ensures k <= Number(b) ==> Number(Up(b, k)) == Number(b) - k && IsAncestor(Up(b, k), b)
    ensures k <= Number(b) && hc.IsCanonical(b) ==> hc.IsCanonical(Up(b, k))
    ensures hc.IsCanonical(b) ==> Detour(hc.canon, b) == 0
  {
    if k <= Number(b) {
      AtFacts(b, Number(b) - k);
      if hc.IsCanonical(b) {
        AtAt(hc.current, Number(b), Number(b) - k);
      }
    }
  }

  /** Collects headers from a hash: all known, all on one chain, spaced as asked. Starting on the
      canonical chain nothing available is left out; from elsewhere there is nothing ahead. */
  method HeadersByHash(hc: HeaderChain, hash: Block, amount: nat, skip: nat, reverse: bool) returns (headers: seq<Block>)
    requires hc.Valid() && Heights64(hc) && amount < TWO64 && skip < TWO64
    modifies hc`headerCache, hc`numberCache
    ensures hc.Valid() && |headers| <= Limit(amount) && Spaced(headers, skip, reverse)
    ensures forall h :: h in headers ==> h in hc.store
    ensures headers == [] <==> hash !in hc.store || Limit(amount) == 0
    ensures headers != [] ==> headers[0] == hash
    ensures headers != [] && hc.IsCanonical(hash) ==>
              && (forall h :: h in headers ==> hc.IsCanonical(h))
              && (|headers| == Limit(amount) || !HasNext(hc.current, headers[|headers| - 1], skip, reverse))
    ensures headers != [] && !hc.IsCanonical(hash) && !reverse ==> headers == [hash]
    ensures headers != [] && reverse && Detour(hc.canon, hash) <= MAX_NON_CANONICAL ==>
              |headers| == Limit(amount) || Number(headers[|headers| - 1]) < skip + 1
  {
    hide PathIndex, Tree, At, Number, HasNext, Follows, Detour;
    headers := [];
    var unknown, first := false, true;
    var bytes, maxNonCanonical: nat := 0, MAX_NON_CANONICAL;
    var next := hash;
    while !unknown && |headers| < ToInt(amount) && bytes < SOFT_RESPONSE_LIMIT && |headers| < MAX_HEADER_FETCH
      invariant hc.Valid() && |headers| <= Limit(amount) && bytes == |headers| * EST_HEADER_RLP_SIZE
      invariant first <==> headers == []
      invariant first ==> next == hash && !unknown
      invariant !first ==> hash in hc.store && headers[0] == hash
      invariant !first && !unknown ==> next in hc.store && Follows(headers[|headers| - 1], next, skip, reverse)
      invariant Gathered(hc, headers, skip, reverse)
      invariant hc.IsCanonical(hash) ==>
                  && (forall h :: h in headers ==> hc.IsCanonical(h)) && (!unknown ==> hc.IsCanonical(next))
                  && (unknown ==> !HasNext(hc.current, headers[|headers| - 1], skip, reverse))
      invariant !first && !hc.IsCanonical(hash) && !reverse ==> headers == [hash] && unknown
      invariant reverse && Detour(hc.canon, hash) <= MAX_NON_CANONICAL ==>
                  if unknown then Number(headers[|headers| - 1]) < skip + 1 else Detour(hc.canon, next) <= maxNonCanonical
    {
      var origin;
      if first {
        origin := hc.GetHeaderByHash(next);
      } else {
        origin := hc.GetHeader(next);
      }
      if origin == None {
        break;
      }
      Gather(hc, headers, next, skip, reverse);
      headers := headers + [next];
      bytes := bytes + EST_HEADER_RLP_SIZE;
      first := false;
      var r;
      r, maxNonCanonical := NextByHash(hc, next, skip, reverse, maxNonCanonical);
      if r == None {
        unknown := true;
      } else {
        next := r.value;
      }
    }
  }

  ghost predicate Gathered(hc: HeaderChain, headers: seq<Block>, skip: nat, reverse: bool)
    reads hc`store
  {
    Spaced(headers, skip, reverse) && forall h :: h in headers ==> h in hc.store
  }

  lemma Gather(hc: HeaderChain, headers: seq<Block>, next: Block, skip: nat, reverse: bool)
    requires Gathered(hc, headers, skip, reverse) && next in hc.store
    requires headers != [] ==> Follows(headers[|headers| - 1], next, skip, reverse)
    ensures Gathered(hc, headers + [next], skip, reverse)
  {
    hide Follows;
    var hs := headers + [next];
    forall i | 0 <= i < |hs| - 1 ensures Follows(hs[i], hs[i + 1], skip, reverse) {
      assert i < |headers| - 1 ==> Follows(headers[i], headers[i + 1], skip, reverse);
    }
  }

  /** The height a query from a number moves to: sums and differences wrap at 64 bits. */
  function NextHeight(n: nat, skip: nat, reverse: bool): (r: Option<nat>) {
    var step := (skip + 1) % TWO64;
    if !reverse then Some((n + step) % TWO64) else if n >= step then Some(n - step) else None
  }

  /** The height after i steps, without wrapping. */
  function Height(number: nat, skip: nat, i: nat): nat {
    number + i * (skip + 1)
  }

  lemma HeightStep(number: nat, skip: nat, i: nat)
    ensures Height(number, skip, i + 1) == Height(number, skip, i) + skip + 1 && Height(number, skip, 0) == number
  {
  }

  /** How many headers an upward reply can hold before it leaves the chain. */
  function Reach(number: nat, skip: nat, top: nat): nat
    requires number <= top
  {
    (top - number) / (skip + 1) + 1
  }

  lemma HeightMonotone(number: nat, skip: nat, i: nat, j: nat)
    requires i <= j
    ensures Height(number, skip, i) <= Height(number, skip, j)
  {
    assert (j - i) * (skip + 1) >= 0;
    assert j * (skip + 1) == i * (skip + 1) + (j - i) * (skip + 1);
  }

  lemma ReachFacts(number: nat, skip: nat, top: nat)
    requires number <= top
    ensures Height(number, skip, Reach(number, skip, top) - 1) <= top < Height(number, skip, Reach(number, skip, top))
  {
    var room, step := top - number, skip + 1;
    var q, r := room / step, room % step;
    assert room == q * step + r && 0 <= r < step;
    HeightStep(number, skip, q);
  }

  /** What a reply by number shows: canonical heights, each the next of the one before, and the last
      one followed by nothing unless the limit is reached. */
  ghost predicate Replied(heights: seq<nat>, number: nat, skip: nat, reverse: bool, limit: nat, top: nat) {
    && 0 < |heights| <= limit && heights[0] == number && (forall n :: n in heights ==> n <= top)
    && (forall i :: 0 <= i < |heights| - 1 ==> NextHeight(heights[i], skip, reverse) == Some(heights[i + 1]))
    && (|| |heights| == limit
        || (var n := NextHeight(heights[|heights| - 1], skip, reverse); n == None || n.value > top))
  }

  ghost predicate EvenlySpaced(heights: seq<nat>, skip: nat, reverse: bool) {
    forall i :: 0 <= i < |heights| - 1 ==>
                  if reverse then heights[i + 1] + skip + 1 == heights[i] else heights[i] + skip + 1 == heights[i + 1]
  }

  /** Nothing wraps within the reply: downwards the skip leaves a step, upwards the first height
      beyond the chain is not reached or fits 64 bits. */
  predicate NoWrap(number: nat, skip: nat, reverse: bool, limit: nat, top: nat)
    requires number <= top
  {
    if reverse then skip + 1 < TWO64 || limit <= 1
    else Reach(number, skip, top) >= limit || Height(number, skip, Reach(number, skip, top)) < TWO64
  }

  /** As long as the chain reaches, an upward reply takes the plain heights. */
  lemma {:induction false} PlainHeights(heights: seq<nat>, number: nat, skip: nat, limit: nat, top: nat, i: nat)
    requires Replied(heights, number, skip, false, limit, top) && number <= top < TWO64 && skip < TWO64
    requires i < |heights| && i < Reach(number, skip, top)
    ensures heights[i] == Height(number, skip, i)
  {
    hide Height, Reach;
    HeightStep(number, skip, i);
    if i > 0 {
      PlainHeights(heights, number, skip, limit, top, i - 1);
      HeightStep(number, skip, i - 1);
      ReachFacts(number, skip, top);
      HeightMonotone(number, skip, i, Reach(number, skip, top) - 1);
      assert NextHeight(heights[i - 1], skip, false) == Some(heights[i]);
      Unwrapped(heights[i - 1], skip);
    }
  }

  lemma Unwrapped(n: nat, skip: nat)
    requires n < TWO64 && skip < TWO64
    ensures NextHeight(n, skip, false) == Some(if n + skip + 1 < TWO64 then n + skip + 1 else n + skip + 1 - TWO64)
  {
  }

  /** Replies by number are spaced as asked if and only if nothing wraps. */
  lemma SpacedIff(heights: seq<nat>, number: nat, skip: nat, reverse: bool, limit: nat, top: nat)
    requires Replied(heights, number, skip, reverse, limit, top) && number <= top < TWO64 && skip < TWO64
    ensures EvenlySpaced(heights, skip, reverse) <==> NoWrap(number, skip, reverse, limit, top)
  {
    if reverse {
      if skip + 1 == TWO64 && |heights| > 1 {
        assert NextHeight(heights[0], skip, true) == Some(heights[1]);
      }
    } else {
      SpacedUp(heights, number, skip, limit, top);
    }
  }

  lemma SpacedUp(heights: seq<nat>, number: nat, skip: nat, limit: nat, top: nat)
    requires Replied(heights, number, skip, false, limit, top) && number <= top < TWO64 && skip < TWO64
    ensures EvenlySpaced(heights, skip, false) <==> NoWrap(number, skip, false, limit, top)
  {
    hide Height, Reach, NextHeight;
    var k, n := Reach(number, skip, top), |heights|;
    ReachFacts(number, skip, top);
    ReachPositive(number, skip, top);
    forall i | 0 <= i < n && i < k ensures heights[i] == Height(number, skip, i) {
      PlainHeights(heights, number, skip, limit, top, i);
    }
    forall i | 0 <= i < n - 1 && i + 1 < k ensures heights[i] + skip + 1 == heights[i + 1] {
      HeightStep(number, skip, i);
    }
    if n > k {
      assert heights[k] in heights && NextHeight(heights[k - 1], skip, false) == Some(heights[k]);
      HeightStep(number, skip, k - 1);
      Unwrapped(heights[k - 1], skip);
    } else if n < limit {
      HeightStep(number, skip, n - 1);
      assert heights[n - 1] in heights;
      Unwrapped(heights[n - 1], skip);
      HeightMonotone(number, skip, n, k - 1 + if n == k then 1 else 0);
    }
  }

  lemma ReachPositive(number: nat, skip: nat, top: nat)
    requires number <= top
    ensures Reach(number, skip, top) >= 1
  {
  }

  /** Collects headers by height: each the canonical one at the height reached, until a height is
      missing or there is no next height. */
  method HeadersByNumber(hc: HeaderChain, number: nat, amount: nat, skip: nat, reverse: bool) returns (headers: seq<Block>)
    requires hc.Valid() && Heights64(hc) && amount < TWO64 && skip < TWO64 && number < TWO64
    modifies hc`headerCache
    ensures hc.Valid() && |headers| <= Limit(amount)
    ensures forall h :: h in headers ==> hc.IsCanonical(h)
    ensures headers == [] <==> number > Number(hc.current) || Limit(amount) == 0
    ensures headers != [] ==> Number(headers[0]) == number
    ensures forall i :: 0 <= i < |headers| - 1 ==> NextHeight(Number(headers[i]), skip, reverse) == Some(Number(headers[i + 1]))
    ensures headers != [] ==>
              || |headers| == Limit(amount)
              || (var n := NextHeight(Number(headers[|headers| - 1]), skip, reverse); n == None || n.value > Number(hc.current))
    ensures headers != [] ==>
              number <= Number(hc.current) && (Spaced(headers, skip, reverse) <==> NoWrap(number, skip, reverse, Limit(amount), Number(hc.current)))
  {
    hide PathIndex, Tree, At, Number, NextHeight, NoWrap, Follows, Spaced;
    headers := [];
    var unknown, bytes, n := false, 0, number;
    while !unknown && |headers| < ToInt(amount) && bytes < SOFT_RESPONSE_LIMIT && |headers| < MAX_HEADER_FETCH
      invariant hc.Valid() && |headers| <= Limit(amount) && bytes == |headers| * EST_HEADER_RLP_SIZE && n < TWO64
      invariant forall h :: h in headers ==> hc.IsCanonical(h)
      invariant if headers == [] then n == number && !unknown else Number(headers[0]) == number <= Number(hc.current)
      invariant forall i :: 0 <= i < |headers| - 1 ==> NextHeight(Number(headers[i]), skip, reverse) == Some(Number(headers[i + 1]))
      invariant headers != [] ==> NextHeight(Number(headers[|headers| - 1]), skip, reverse) == if unknown then None else Some(n)
    {
      var origin := hc.GetHeaderByNumber(n);
      if origin == None {
        break;
      }
      headers := headers + [origin.value];
      bytes := bytes + EST_HEADER_RLP_SIZE;
      NextHeightIs(n, skip, reverse);
      if reverse {
        if n >= (skip + 1) % TWO64 {
          n := n - (skip + 1) % TWO64;
        } else {
          unknown := true;
        }
      } else {
        n := (n + (skip + 1) % TWO64) % TWO64;
      }
    }
    if headers != [] {
      ReplySpaced(hc, headers, number, skip, reverse, Limit(amount));
    }
  }

  ghost function HeightsOf(headers: seq<Block>): seq<nat> {
    seq(|headers|, i requires 0 <= i < |headers| => Number(headers[i]))
  }

  lemma CanonicalAncestor(hc: HeaderChain, a: Block, b: Block)
    requires hc.Valid() && hc.IsCanonical(a) && hc.IsCanonical(b) && Number(a) <= Number(b)
    ensures IsAncestor(a, b)
  {
    AtAt(hc.current, Number(b), Number(a));
  }

  lemma ReplySpaced(hc: HeaderChain, headers: seq<Block>, number: nat, skip: nat, reverse: bool, limit: nat)
    requires hc.Valid() && Heights64(hc) && skip < TWO64 && number < TWO64 && 0 < |headers| <= limit
    requires (forall h :: h in headers ==> hc.IsCanonical(h)) && Number(headers[0]) == number <= Number(hc.current)
    requires forall i :: 0 <= i < |headers| - 1 ==> NextHeight(Number(headers[i]), skip, reverse) == Some(Number(headers[i + 1]))
    requires |headers| == limit ||
             (var n := NextHeight(Number(headers[|headers| - 1]), skip, reverse); n == None || n.value > Number(hc.current))
    ensures Spaced(headers, skip, reverse) <==> NoWrap(number, skip, reverse, limit, Number(hc.current))
  {
    hide PathIndex, Tree, At, Number, NextHeight, NoWrap;
    Heights(hc);
    var heights := HeightsOf(headers);
    forall n | n in heights ensures n <= Number(hc.current) {
      var i :| 0 <= i < |headers| && Number(headers[i]) == n;
      assert headers[i] in headers;
      OnChain(hc, headers[i]);
    }
    SpacedIff(heights, number, skip, reverse, limit, Number(hc.current));
    forall i | 0 <= i < |headers| - 1
      ensures Follows(headers[i], headers[i + 1], skip, reverse) <==>
              if reverse then heights[i + 1] + skip + 1 == heights[i] else heights[i] + skip + 1 == heights[i + 1]
    {
      FollowsBy(hc, headers[i], headers[i + 1], skip, reverse);
    }
  }

  lemma OnChain(hc: HeaderChain, b: Block)
    requires hc.Valid() && hc.IsCanonical(b)
    ensures Number(b) <= Number(hc.current)
  {
  }

  lemma FollowsBy(hc: HeaderChain, a: Block, b: Block, skip: nat, reverse: bool)
    requires hc.Valid() && hc.IsCanonical(a) && hc.IsCanonical(b)
    ensures Follows(a, b, skip, reverse) <==>
            if reverse then Number(b) + skip + 1 == Number(a) else Number(a) + skip + 1 == Number(b)
  {
    hide PathIndex, Tree, At, Number;
    if reverse {
      if Number(b) <= Number(a) { CanonicalAncestor(hc, b, a); }
    } else if Number(a) <= Number(b) {
      CanonicalAncestor(hc, a, b);
    }
  }

  lemma OnlyGenesis(hc: HeaderChain, h: Block)
    requires hc.Valid() && hc.current == hc.genesis && hc.IsCanonical(h)
    ensures h == hc.genesis && Number(h) == 0
  {
    assert 0 in hc.canon && hc.canon[0] == At(hc.genesis, 0);
  }

  /** The largest skip, downwards from genesis: three times the same header. */
  method RepeatedHeaderExample() returns (hc: HeaderChain, headers: seq<Block>)
    ensures hc.Valid() && headers == [hc.genesis, hc.genesis, hc.genesis] && !Spaced(headers, TWO64 - 1, true)
  {
    hide NextHeight, PathIndex, Spaced;
    var genesis := Genesis(0, 1, 0, []);
    hc := new HeaderChain(genesis);
    headers := HeadersByNumber(hc, 0, 3, TWO64 - 1, true);
    NextHeightIs(0, TWO64 - 1, true);
    forall h | h in headers ensures h == genesis && Number(h) == 0 { OnlyGenesis(hc, h); }
    assert headers[|headers| - 1] in headers;
    assert headers[0] in headers && headers[1] in headers && headers[2] in headers;
  }

  lemma NextHeightIs(n: nat, skip: nat, reverse: bool)
    ensures !reverse ==> NextHeight(n, skip, reverse) == Some((n + (skip + 1) % TWO64) % TWO64)
    ensures reverse && n >= (skip + 1) % TWO64 ==> NextHeight(n, skip, reverse) == Some(n - (skip + 1) % TWO64)
    ensures reverse && n < (skip + 1) % TWO64 ==> NextHeight(n, skip, reverse) == None
  {
  }
}
