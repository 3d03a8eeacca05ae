/** Finite sums over maps and extreme keys of nonce-indexed maps. */
module Collections {

  datatype Option<+T> = None | Some(value: T)

  /** The sum of the values of a finite map. */
  ghost function Sum<K(!new)>(m: map<K, nat>): nat
    decreases |m|
  {
    if m == map[] then 0
    else
      var k :| k in m;
      m[k] + Sum(m - {k})
  }

  lemma {:induction false} SumRemove<K(!new)>(m: map<K, nat>, k: K)
    requires k in m
    ensures Sum(m) == m[k] + Sum(m - {k})
    decreases |m|
  {
    var j :| j in m && Sum(m) == m[j] + Sum(m - {j});
    if j != k {
      SumRemove(m - {j}, k);
      SumRemove(m - {k}, j);
      assert (m - {j}) - {k} == (m - {k}) - {j};
    }
  }

  lemma SumUpdate<K(!new)>(m: map<K, nat>, k: K, v: nat)
    ensures Sum(m[k := v]) == Sum(m) + v - (if k in m then m[k] else 0)
  {
    SumRemove(m[k := v], k);
    assert m[k := v] - {k} == m - {k};
    if k in m {
      SumRemove(m, k);
    } else {
      assert m - {k} == m;
    }
  }

  lemma {:induction false} SumBounds<K(!new)>(m: map<K, nat>, k: K)
    requires k in m
    ensures m[k] <= Sum(m)
  {
    SumRemove(m, k);
  }

  /** Pointwise smaller maps over the same keys have smaller sums. */
  lemma {:induction false} SumMonotone<K(!new)>(m: map<K, nat>, n: map<K, nat>)
    requires m.Keys == n.Keys
    requires forall k :: k in m ==> m[k] <= n[k]
    ensures Sum(m) <= Sum(n)
    decreases |m|
  {
    if m != map[] {
      var k :| k in m;
      SumRemove(m, k);
      SumRemove(n, k);
      SumMonotone(m - {k}, n - {k});
    } else {
      assert n == map[];
    }
  }

  /** Maps that agree once a key is taken out agree on all other keys. */
  lemma SameElsewhere<K(!new), V(!new)>(m: map<K, V>, m': map<K, V>, a: K)
    requires m' - {a} == m - {a}
    ensures forall b :: b != a ==> (b in m' <==> b in m)
    ensures forall b :: b != a && b in m ==> m'[b] == m[b]
  {
    forall b | b != a ensures (b in m' <==> b in m) && (b in m ==> m'[b] == m[b]) {
      assert b in m <==> b in m - {a};
      assert b in m' <==> b in m' - {a};
      assert b in m ==> (m - {a})[b] == (m' - {a})[b];
    }
  }

  const TWO64 := 0x1_0000_0000_0000_0000

  function Lesser(a: nat, b: nat): nat {
    if a <= b then a else b
  }

  lemma Product(a: nat, b: nat)
    ensures a * b >= 0
  {
  }

  predicate IsMin(n: nat, s: set<nat>) {
    n in s && forall m :: m in s ==> n <= m
  }

  predicate IsMax(n: nat, s: set<nat>) {
    n in s && forall m :: m in s ==> m <= n
  }

  lemma {:induction false} MinExists(s: set<nat>) returns (least: nat)
    requires s != {}
    ensures IsMin(least, s)
  {
    least :| least in s;
    var rest := s - {least};
    if rest != {} {
      var m := MinExists(rest);
      assert forall k :: k in s ==> k == least || k in rest;
      if m < least { least := m; }
    } else {
      assert s == {least};
    }
  }

  lemma {:induction false} MaxExists(s: set<nat>) returns (most: nat)
    requires s != {}
    ensures IsMax(most, s)
  {
    most :| most in s;
    var rest := s - {most};
    if rest != {} {
      var m := MaxExists(rest);
      assert forall k :: k in s ==> k == most || k in rest;
      if most < m { most := m; }
    } else {
      assert s == {most};
    }
  }

  function Min(s: set<nat>): (n: nat)
    requires s != {}
    ensures IsMin(n, s)
  {
    assert exists n :: n in s && IsMin(n, s) by { var n := MinExists(s); }
    var n :| n in s && IsMin(n, s);
    n
  }

  function Max(s: set<nat>): (n: nat)
    requires s != {}
    ensures IsMax(n, s)
  {
    assert exists n :: n in s && IsMax(n, s) by { var n := MaxExists(s); }
    var n :| n in s && IsMax(n, s);
    n
  }

  /** m holds every key exactly once and nothing else. */
  ghost predicate Once(m: multiset<nat>, keys: set<nat>) {
    forall n: nat :: m[n] == if n in keys then 1 else 0
  }

  lemma {:induction false} OnceSize(m: multiset<nat>, keys: set<nat>)
    requires Once(m, keys)
    ensures |m| == |keys|
    decreases |keys|
  {
    if keys == {} {
      assert m == multiset{};
    } else {
      var n :| n in keys;
      OnceSize(m - multiset{n}, keys - {n});
    }
  }

  ghost function Elements<T>(s: seq<T>): set<T> {
    set x | x in s
  }

  lemma {:induction false} ElementsSize<T>(s: seq<T>)
    ensures |Elements(s)| <= |s|
  {
    if s != [] {
      var init, last := s[..|s| - 1], s[|s| - 1];
      ElementsSize(init);
      assert s == init + [last];
      assert Elements(s) == Elements(init) + {last};
    }
  }

  lemma {:induction false} SubsetSize<T>(a: set<T>, b: set<T>)
    requires a <= b
    ensures |a| <= |b|
  {
    assert b == a + (b - a);
  }

  /** Taking the elements of s out of a set removes at most |s| of them. */
  lemma MinusElements<T>(a: set<T>, s: seq<T>)
    ensures |a| <= |a - Elements(s)| + |s|
  {
    ElementsSize(s);
    SubsetSize(a, (a - Elements(s)) + Elements(s));
  }
}
