/** Binary heaps stored in a sequence, with the element moves of Go's container/heap. */
module Heap {

  /** Heap positions are decided by a rank: first the major, then the minor component. */
  datatype Rank = Rank(major: int, minor: int)

  predicate Le(a: Rank, b: Rank) {
    a.major < b.major || (a.major == b.major && a.minor <= b.minor)
  }

  function Parent(i: nat): nat
    requires 0 < i
  {
    (i - 1) / 2
  }

  ghost predicate Edge<T(!new)>(s: seq<T>, i: nat, key: T -> Rank)
    requires 0 < i < |s|
  {
    Le(key(s[Parent(i)]), key(s[i]))
  }

  /** Heap order on every edge whose parent is at lo or later. */
  ghost predicate HeapFrom<T(!new)>(s: seq<T>, lo: nat, key: T -> Rank) {
    forall i :: 0 < i < |s| && lo <= Parent(i) ==> Edge(s, i, key)
  }

  ghost predicate IsHeap<T(!new)>(s: seq<T>, key: T -> Rank) {
    HeapFrom(s, 0, key)
  }

  /** Heap order except on the edges that touch k, over which order still carries. */
  ghost predicate NearHeap<T(!new)>(s: seq<T>, lo: nat, k: nat, key: T -> Rank) {
    && (forall i :: 0 < i < |s| && lo <= Parent(i) && i != k && Parent(i) != k ==> Edge(s, i, key))
    && (forall i :: 0 < i < |s| && Parent(i) == k && 0 < k && lo <= Parent(k) ==>
                      Le(key(s[Parent(k)]), key(s[i])))
  }

  /** The edge from the parent of k to k is in order. */
  ghost predicate UpOk<T(!new)>(s: seq<T>, lo: nat, k: nat, key: T -> Rank)
    requires k < |s|
  {
    0 < k && lo <= Parent(k) ==> Edge(s, k, key)
  }

  /** The edges from k to its children are in order. */
  ghost predicate DownOk<T(!new)>(s: seq<T>, k: nat, key: T -> Rank) {
    forall i :: 0 < i < |s| && Parent(i) == k ==> Edge(s, i, key)
  }

  lemma {:induction false} RootIsLeast<T(!new)>(s: seq<T>, i: nat, key: T -> Rank)
    requires IsHeap(s, key) && i < |s|
    ensures Le(key(s[0]), key(s[i]))
  {
    if i != 0 {
      RootIsLeast(s, Parent(i), key);
      assert Edge(s, i, key);
    }
  }

  lemma RootIsLeastAll<T(!new)>(s: seq<T>, key: T -> Rank)
    requires IsHeap(s, key) && s != []
    ensures forall x :: x in s ==> Le(key(s[0]), key(x))
  {
    forall x | x in s ensures Le(key(s[0]), key(x)) {
      var i :| 0 <= i < |s| && s[i] == x;
      RootIsLeast(s, i, key);
    }
  }

  function Swap<T>(s: seq<T>, i: nat, j: nat): (r: seq<T>)
    requires i < |s| && j < |s|
    ensures multiset(r) == multiset(s)
  {
    s[i := s[j]][j := s[i]]
  }

  lemma UpStep<T(!new)>(s: seq<T>, k: nat, key: T -> Rank)
    requires 0 < k < |s| && NearHeap(s, 0, k, key) && DownOk(s, k, key) && !Edge(s, k, key)
    ensures var r := Swap(s, k, Parent(k)); NearHeap(r, 0, Parent(k), key) && DownOk(r, Parent(k), key)
  {
    var p := Parent(k);
    var r := Swap(s, k, p);
    forall i | 0 < i < |r| && i != p && Parent(i) != p ensures Edge(r, i, key) {
      assert Parent(i) != k ==> Edge(s, i, key);
    }
    forall i | 0 < i < |r| && Parent(i) == p ensures Edge(r, i, key) {
      assert i != k ==> Edge(s, i, key);
    }
    forall i | 0 < i < |r| && Parent(i) == p && 0 < p ensures Le(key(r[Parent(p)]), key(r[i])) {
      assert Edge(s, p, key);
      assert i != k ==> Edge(s, i, key);
    }
  }

  /** j is a child of k, and no child of k ranks below it. */
  ghost predicate BestChild<T(!new)>(s: seq<T>, k: nat, j: nat, key: T -> Rank) {
    && k < j < |s| && Parent(j) == k
    && forall i :: 0 < i < |s| && Parent(i) == k ==> Le(key(s[j]), key(s[i]))
  }

  lemma Best<T(!new)>(s: seq<T>, k: nat, key: T -> Rank)
    requires 2 * k + 1 < |s|
    ensures BestChild(s, k, if 2 * k + 2 < |s| && !Le(key(s[2 * k + 1]), key(s[2 * k + 2])) then 2 * k + 2 else 2 * k + 1, key)
  {
  }

  /** A place with no child, or with a best child that does not rank below it. */
  lemma DownDone<T(!new)>(s: seq<T>, k: nat, j: nat, key: T -> Rank)
    requires k < |s|
    requires 2 * k + 1 >= |s| || (BestChild(s, k, j, key) && Le(key(s[k]), key(s[j])))
    ensures DownOk(s, k, key)
  {
  }

  lemma DownStep<T(!new)>(s: seq<T>, lo: nat, k: nat, j: nat, key: T -> Rank)
    requires lo <= k < |s| && BestChild(s, k, j, key)
    requires NearHeap(s, lo, k, key) && !Le(key(s[k]), key(s[j]))
    ensures var r := Swap(s, k, j); NearHeap(r, lo, j, key) && UpOk(r, lo, j, key)
  {
    var r := Swap(s, k, j);
    forall i | 0 < i < |r| && lo <= Parent(i) && i != j && Parent(i) != j ensures Edge(r, i, key) {
      assert i != k && Parent(i) != k ==> Edge(s, i, key);
    }
    forall i | 0 < i < |r| && Parent(i) == j ensures Le(key(r[k]), key(r[i])) {
      assert Edge(s, i, key);
    }
  }

  lemma Settled<T(!new)>(s: seq<T>, lo: nat, k: nat, key: T -> Rank)
    requires k < |s| && NearHeap(s, lo, k, key) && UpOk(s, lo, k, key) && DownOk(s, k, key)
    ensures HeapFrom(s, lo, key)
  {
  }

  lemma ChildLower<T(!new)>(s: seq<T>, k: nat, j: nat, key: T -> Rank)
    requires BestChild(s, k, j, key)
    ensures k < j < |s|
  {
  }

  /** The element at k sinks below every better child. */
  function Sunk<T(!new)>(s: seq<T>, k: nat, key: T -> Rank): seq<T>
    requires k < |s|
    decreases |s| - k
  {
    if 2 * k + 1 >= |s| then s
    else
      var j := if 2 * k + 2 < |s| && !Le(key(s[2 * k + 1]), key(s[2 * k + 2])) then 2 * k + 2 else 2 * k + 1;
      if Le(key(s[k]), key(s[j])) then s else Sunk(Swap(s, k, j), j, key)
  }

  lemma SunkUnfold<T(!new)>(s: seq<T>, k: nat, key: T -> Rank)
    requires k < |s|
    ensures 2 * k + 1 >= |s| ==> Sunk(s, k, key) == s
    ensures 2 * k + 1 < |s| ==>
              var j := if 2 * k + 2 < |s| && !Le(key(s[2 * k + 1]), key(s[2 * k + 2])) then 2 * k + 2 else 2 * k + 1;
              Sunk(s, k, key) == if Le(key(s[k]), key(s[j])) then s else Sunk(Swap(s, k, j), j, key)
  {
  }

  /** What is left once the root is popped. */
  function Rest<T(!new)>(s: seq<T>, key: T -> Rank): seq<T>
    requires s != []
  {
    var n := |s| - 1;
    if n == 0 then [] else Sunk(Swap(s, 0, n)[..n], 0, key)
  }

  method Up<T(!new)>(s: seq<T>, k: nat, key: T -> Rank) returns (r: seq<T>)
    requires k < |s|
    requires NearHeap(s, 0, k, key) && DownOk(s, k, key)
    ensures multiset(r) == multiset(s)
    ensures IsHeap(r, key)
  {
    r := s;
    var i: nat := k;
    while 0 < i && !Le(key(r[Parent(i)]), key(r[i]))
      invariant i < |r| && multiset(r) == multiset(s)
      invariant NearHeap(r, 0, i, key) && DownOk(r, i, key)
    {
      UpStep(r, i, key);
      r := Swap(r, i, Parent(i));
      i := Parent(i);
    }
    Settled(r, 0, i, key);
  }

  method Down<T(!new)>(s: seq<T>, ghost lo: nat, k: nat, key: T -> Rank) returns (r: seq<T>, moved: bool)
    requires lo <= k < |s|
    requires NearHeap(s, lo, k, key)
    ensures multiset(r) == multiset(s) && |r| == |s|
    ensures moved || UpOk(s, lo, k, key) ==> HeapFrom(r, lo, key)
    ensures !moved ==> r == s && DownOk(s, k, key)
    ensures r == Sunk(s, k, key)
  {
    hide NearHeap, UpOk, DownOk, HeapFrom, BestChild, Le, Sunk;
    r := s;
    var i: nat, j: nat := k, k;
    while 2 * i + 1 < |r|
      invariant k <= i < |r| && multiset(r) == multiset(s) && |r| == |s|
      invariant NearHeap(r, lo, i, key)
      invariant if i == k then r == s else UpOk(r, lo, i, key)
      invariant Sunk(r, i, key) == Sunk(s, k, key)
      decreases |r| - i
    {
      Best(r, i, key);
      SunkUnfold(r, i, key);
      j := 2 * i + 1;
      if j + 1 < |r| && !Le(key(r[j]), key(r[j + 1])) {
        j := j + 1;
      }
      if Le(key(r[i]), key(r[j])) {
        break;
      }
      ChildLower(r, i, j, key);
      DownStep(r, lo, i, j, key);
      r := Swap(r, i, j);
      i := j;
    }
    moved := i > k;
    SunkUnfold(r, i, key);
    DownDone(r, i, j, key);
    if moved || UpOk(s, lo, k, key) {
      Settled(r, lo, i, key);
    }
  }

  method Push<T(!new)>(s: seq<T>, x: T, key: T -> Rank) returns (r: seq<T>)
    requires IsHeap(s, key)
    ensures IsHeap(r, key)
    ensures multiset(r) == multiset(s) + multiset{x}
  {
    var t := s + [x];
    forall i | 0 < i < |t| && i != |s| ensures Edge(t, i, key) {
      assert Edge(s, i, key);
    }
    r := Up(t, |s|, key);
  }

  /** Removes the element at index i. */
  method Remove<T(!new)>(s: seq<T>, i: nat, key: T -> Rank) returns (r: seq<T>)
    requires IsHeap(s, key) && i < |s|
    ensures IsHeap(r, key)
    ensures multiset(s) == multiset(r) + multiset{s[i]}
  {
    var n := |s| - 1;
    var t := Swap(s, i, n);
    assert t == t[..n] + [s[i]];
    r := t[..n];
    if i == n {
      forall j | 0 < j < |r| ensures Edge(r, j, key) { assert Edge(s, j, key); }
    } else {
      NearAfterRemove(s, r, i, key);
      var moved;
      r, moved := Down(r, 0, i, key);
      if !moved {
        r := Up(r, i, key);
      }
    }
  }

  lemma NearAfterRemove<T(!new)>(s: seq<T>, r: seq<T>, i: nat, key: T -> Rank)
    requires IsHeap(s, key) && i < |s| - 1 && r == Swap(s, i, |s| - 1)[..|s| - 1]
    ensures NearHeap(r, 0, i, key)
  {
    forall j | 0 < j < |r| && j != i && Parent(j) != i ensures Edge(r, j, key) {
      assert Edge(s, j, key);
    }
    forall j | 0 < j < |r| && Parent(j) == i && 0 < i ensures Le(key(r[Parent(i)]), key(r[j])) {
      assert Edge(s, j, key) && Edge(s, i, key);
    }
  }

  /** Removes and returns a least element. */
  method Pop<T(!new)>(s: seq<T>, key: T -> Rank) returns (x: T, r: seq<T>)
    requires IsHeap(s, key) && s != []
    ensures x == s[0] && (forall y :: y in s ==> Le(key(x), key(y)))
    ensures IsHeap(r, key) && r == Rest(s, key)
    ensures multiset(s) == multiset(r) + multiset{x}
  {
    RootIsLeastAll(s, key);
    x := s[0];
    var n := |s| - 1;
    var t := Swap(s, 0, n);
    assert t == t[..n] + [x];
    r := t[..n];
    if n > 0 {
      NearAfterRemove(s, r, 0, key);
      var moved;
      r, moved := Down(r, 0, 0, key);
    }
  }

  /** The order in which popping empties the heap. */
  function Order<T(!new)>(s: seq<T>, key: T -> Rank): seq<T>
    decreases |s|
  {
    if s == [] then [] else
    RestSize(s, key);
    [s[0]] + Order(Rest(s, key), key)
  }

  lemma {:induction false} SunkSize<T(!new)>(s: seq<T>, k: nat, key: T -> Rank)
    requires k < |s|
    ensures |Sunk(s, k, key)| == |s| && multiset(Sunk(s, k, key)) == multiset(s)
    decreases |s| - k
  {
    if 2 * k + 1 < |s| {
      var j := if 2 * k + 2 < |s| && !Le(key(s[2 * k + 1]), key(s[2 * k + 2])) then 2 * k + 2 else 2 * k + 1;
      SunkSize(Swap(s, k, j), j, key);
    }
  }

  lemma RestSize<T(!new)>(s: seq<T>, key: T -> Rank)
    requires s != []
    ensures |Rest(s, key)| == |s| - 1 && multiset(s) == multiset(Rest(s, key)) + multiset{s[0]}
  {
    var n := |s| - 1;
    var t := Swap(s, 0, n);
    assert t == t[..n] + [s[0]];
    if n > 0 {
      SunkSize(t[..n], 0, key);
    }
  }

  lemma RestIsHeap<T(!new)>(s: seq<T>, key: T -> Rank)
    requires IsHeap(s, key) && s != []
    ensures IsHeap(Rest(s, key), key)
  {
    var n := |s| - 1;
    if n > 0 {
      var t := Swap(s, 0, n)[..n];
      NearAfterRemove(s, t, 0, key);
      SunkIsHeap(t, 0, key);
    }
  }

  lemma {:induction false} SunkIsHeap<T(!new)>(s: seq<T>, k: nat, key: T -> Rank)
    requires k < |s| && NearHeap(s, 0, k, key) && UpOk(s, 0, k, key)
    ensures IsHeap(Sunk(s, k, key), key)
    decreases |s| - k
  {
    hide NearHeap, UpOk, DownOk, HeapFrom, BestChild, Le;
    var j := 2 * k + 1;
    if 2 * k + 1 < |s| {
      Best(s, k, key);
      j := if 2 * k + 2 < |s| && !Le(key(s[2 * k + 1]), key(s[2 * k + 2])) then 2 * k + 2 else 2 * k + 1;
      if !Le(key(s[k]), key(s[j])) {
        DownStep(s, 0, k, j, key);
        SunkIsHeap(Swap(s, k, j), j, key);
        return;
      }
    }
    DownDone(s, k, j, key);
    Settled(s, 0, k, key);
  }

  /** Popping lists the same entries. */
  lemma {:induction false} OrderSame<T(!new)>(s: seq<T>, key: T -> Rank)
    ensures |Order(s, key)| == |s| && multiset(Order(s, key)) == multiset(s)
    decreases |s|
  {
    hide Rest;
    if s != [] {
      RestSize(s, key);
      OrderSame(Rest(s, key), key);
    }
  }

  /** Popping lists them least first. */
  lemma {:induction false} OrderSorted<T(!new)>(s: seq<T>, key: T -> Rank, i: nat, j: nat)
    requires IsHeap(s, key) && i < j < |Order(s, key)|
    ensures Le(key(Order(s, key)[i]), key(Order(s, key)[j]))
    decreases |s|
  {
    hide Rest, IsHeap, Le;
    OrderSame(s, key);
    var o := Order(s, key);
    RestSize(s, key);
    RestIsHeap(s, key);
    if i == 0 {
      RootIsLeastAll(s, key);
      assert o[j] in multiset(o);
    } else {
      OrderSorted(Rest(s, key), key, i - 1, j - 1);
    }
  }

  /** Builds a heap from arbitrary contents. */
  method Init<T(!new)>(s: seq<T>, key: T -> Rank) returns (r: seq<T>)
    ensures IsHeap(r, key)
    ensures multiset(r) == multiset(s)
  {
    r := s;
    var k := |r| / 2;
    while 0 < k
      invariant 0 <= k <= |r| / 2 && multiset(r) == multiset(s) && |r| == |s|
      invariant HeapFrom(r, k, key)
    {
      k := k - 1;
      var moved;
      r, moved := Down(r, k, k, key);
    }
  }
}
