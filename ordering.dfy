/** The orderings and sorts the scripts rely on: Python's `<` on `str`,
    `sorted(set(xs))`, and the stable `list.sort(key=...)`. */
module Ordering {

  /** Python's `<` on `str`: code point by code point, a proper prefix first. */
  predicate LessStr(a: string, b: string) {
    if a == [] then b != []
    else if b == [] then false
    else if a[0] != b[0] then a[0] < b[0]
    else LessStr(a[1..], b[1..])
  }

  ghost predicate StrictTotalOrder<K(!new)>(lt: (K, K) -> bool) {
    && (forall a :: !lt(a, a))
    && (forall a, b, c :: lt(a, b) && lt(b, c) ==> lt(a, c))
    && (forall a, b :: a != b ==> lt(a, b) || lt(b, a))
  }

  lemma {:induction false} LessStrIrreflexive(a: string)
    ensures !LessStr(a, a)
  {
    if a != [] {
      LessStrIrreflexive(a[1..]);
    }
  }

  lemma {:induction false} LessStrTransitive(a: string, b: string, c: string)
    requires LessStr(a, b) && LessStr(b, c)
    ensures LessStr(a, c)
  {
    if a != [] && b != [] && c != [] && a[0] == b[0] && b[0] == c[0] {
      LessStrTransitive(a[1..], b[1..], c[1..]);
    }
  }

  lemma {:induction false} LessStrTotal(a: string, b: string)
    requires a != b
    ensures LessStr(a, b) || LessStr(b, a)
  {
    if a != [] && b != [] && a[0] == b[0] {
      assert a == [a[0]] + a[1..] && b == [b[0]] + b[1..];
      LessStrTotal(a[1..], b[1..]);
    }
  }

  lemma LessStrIsStrictTotal()
    ensures StrictTotalOrder(LessStr)
  {
    forall a: string ensures !LessStr(a, a) {
      LessStrIrreflexive(a);
    }
    forall a: string, b: string, c: string | LessStr(a, b) && LessStr(b, c)
      ensures LessStr(a, c)
    {
      LessStrTransitive(a, b, c);
    }
    forall a: string, b: string | a != b ensures LessStr(a, b) || LessStr(b, a) {
      LessStrTotal(a, b);
    }
  }

  // ---------------------------------------------------------------------
  // sorted(set(xs))

  predicate StrictlyIncreasing<T>(xs: seq<T>, lt: (T, T) -> bool) {
    forall i, j :: 0 <= i < j < |xs| ==> lt(xs[i], xs[j])
  }

  function InsertUnique<T(==)>(x: T, xs: seq<T>, lt: (T, T) -> bool): seq<T> {
    if xs == [] then [x]
    else if x == xs[0] then xs
    else if lt(x, xs[0]) then [x] + xs
    else [xs[0]] + InsertUnique(x, xs[1..], lt)
  }

  /** `sorted(set(xs))`: the distinct elements of `xs`, in increasing order. */
  function SortUnique<T(==)>(xs: seq<T>, lt: (T, T) -> bool): seq<T> {
    if xs == [] then [] else InsertUnique(xs[0], SortUnique(xs[1..], lt), lt)
  }

  lemma {:induction false} InsertUniqueSpec<T(!new)>(x: T, xs: seq<T>, lt: (T, T) -> bool)
    requires StrictTotalOrder(lt)
    requires StrictlyIncreasing(xs, lt)
    ensures StrictlyIncreasing(InsertUnique(x, xs, lt), lt)
    ensures forall y :: y in InsertUnique(x, xs, lt) <==> y == x || y in xs
  {
    if xs != [] && x != xs[0] && !lt(x, xs[0]) {
      InsertUniqueSpec(x, xs[1..], lt);
      var r := InsertUnique(x, xs[1..], lt);
      assert lt(xs[0], x);
      forall i | 0 <= i < |r| ensures lt(xs[0], r[i]) {
        assert r[i] in r;
      }
    }
  }

  lemma {:induction false} SortUniqueSpec<T(!new)>(xs: seq<T>, lt: (T, T) -> bool)
    requires StrictTotalOrder(lt)
    ensures StrictlyIncreasing(SortUnique(xs, lt), lt)
    ensures forall y :: y in SortUnique(xs, lt) <==> y in xs
  {
    if xs != [] {
      SortUniqueSpec(xs[1..], lt);
      InsertUniqueSpec(xs[0], SortUnique(xs[1..], lt), lt);
      assert xs == [xs[0]] + xs[1..];
    }
  }

  lemma HeadIsMember<T>(a: seq<T>)
    ensures a != [] ==> a[0] in a
  {
  }

  lemma HeadIsLeast<T(!new)>(a: seq<T>, y: T, lt: (T, T) -> bool)
    requires StrictlyIncreasing(a, lt)
    requires y in a
    ensures y == a[0] || lt(a[0], y)
  {
    var i :| 0 <= i < |a| && a[i] == y;
    assert i == 0 || lt(a[0], a[i]);
  }

  /** A strictly increasing sequence is determined by its elements, so
      `SortUnique` is the only possible result of `sorted(set(xs))`. */
  lemma {:induction false} StrictlyIncreasingUnique<T(!new)>(a: seq<T>, b: seq<T>, lt: (T, T) -> bool)
    requires StrictTotalOrder(lt)
    requires StrictlyIncreasing(a, lt) && StrictlyIncreasing(b, lt)
    requires forall y :: y in a <==> y in b
    ensures a == b
  {
    if a == [] || b == [] {
      HeadIsMember(a);
      HeadIsMember(b);
    } else {
      HeadIsLeast(b, a[0], lt);
      HeadIsLeast(a, b[0], lt);
      assert a[0] == b[0];
      forall y ensures y in a[1..] <==> y in b[1..] {
        if y in a[1..] {
          var i :| 1 <= i < |a| && a[i] == y;
          assert lt(a[0], y);
          assert y in b;
        }
        if y in b[1..] {
          var i :| 1 <= i < |b| && b[i] == y;
          assert lt(b[0], y);
          assert y in a;
        }
      }
      StrictlyIncreasingUnique(a[1..], b[1..], lt);
      assert a == [a[0]] + a[1..] && b == [b[0]] + b[1..];
    }
  }

  // ---------------------------------------------------------------------
  // list.sort(key=key): stable

  predicate SortedBy<T, K>(xs: seq<T>, key: T -> K, lt: (K, K) -> bool) {
    forall i, j :: 0 <= i < j < |xs| ==> !lt(key(xs[j]), key(xs[i]))
  }

  /** The elements of `xs` whose key is `k`, in their order in `xs`. */
  function WithKey<T, K(==)>(xs: seq<T>, key: T -> K, k: K): seq<T> {
    if xs == [] then []
    else (if key(xs[0]) == k then [xs[0]] else []) + WithKey(xs[1..], key, k)
  }

  /** Inserts `x` after every element whose key is not greater. */
  function InsertBy<T, K>(x: T, ys: seq<T>, key: T -> K, lt: (K, K) -> bool): seq<T> {
    if ys == [] then [x]
    else if lt(key(x), key(ys[0])) then [x] + ys
    else [ys[0]] + InsertBy(x, ys[1..], key, lt)
  }

  function StableSortBy<T, K>(xs: seq<T>, key: T -> K, lt: (K, K) -> bool): seq<T> {
    if xs == [] then []
    else InsertBy(xs[|xs| - 1], StableSortBy(xs[..|xs| - 1], key, lt), key, lt)
  }

  lemma {:induction false} WithKeyAppend<T, K>(a: seq<T>, b: seq<T>, key: T -> K, k: K)
    ensures WithKey(a + b, key, k) == WithKey(a, key, k) + WithKey(b, key, k)
  {
    if a != [] {
      assert (a + b)[1..] == a[1..] + b;
      WithKeyAppend(a[1..], b, key, k);
    } else {
      assert a + b == b;
    }
  }

  lemma {:induction false} WithKeyNone<T, K>(ys: seq<T>, key: T -> K, k: K)
    requires forall i :: 0 <= i < |ys| ==> key(ys[i]) != k
    ensures WithKey(ys, key, k) == []
  {
    if ys != [] {
      WithKeyNone(ys[1..], key, k);
    }
  }

  lemma {:induction false} InsertByMultiset<T, K>(x: T, ys: seq<T>, key: T -> K, lt: (K, K) -> bool)
    ensures multiset(InsertBy(x, ys, key, lt)) == multiset(ys) + multiset{x}
  {
    if ys != [] && !lt(key(x), key(ys[0])) {
      InsertByMultiset(x, ys[1..], key, lt);
      assert ys == [ys[0]] + ys[1..];
    }
  }

  lemma {:induction false} InsertBySorted<T, K(!new)>(x: T, ys: seq<T>, key: T -> K, lt: (K, K) -> bool)
    requires StrictTotalOrder(lt)
    requires SortedBy(ys, key, lt)
    ensures SortedBy(InsertBy(x, ys, key, lt), key, lt)
  {
    if ys != [] && !lt(key(x), key(ys[0])) {
      var t := InsertBy(x, ys[1..], key, lt);
      InsertBySorted(x, ys[1..], key, lt);
      InsertByMultiset(x, ys[1..], key, lt);
      forall i | 0 <= i < |t| ensures !lt(key(t[i]), key(ys[0])) {
        assert t[i] in multiset(t);
        if t[i] != x {
          assert t[i] in multiset(ys[1..]);
          var j :| 0 <= j < |ys[1..]| && ys[1..][j] == t[i];
          assert ys[j + 1] == t[i];
        }
      }
      assert InsertBy(x, ys, key, lt) == [ys[0]] + t;
    }
  }

  lemma {:induction false} InsertByWithKey<T, K(!new)>(x: T, ys: seq<T>, key: T -> K, lt: (K, K) -> bool, k: K)
    requires StrictTotalOrder(lt)
    requires SortedBy(ys, key, lt)
    ensures WithKey(InsertBy(x, ys, key, lt), key, k)
            == WithKey(ys, key, k) + (if key(x) == k then [x] else [])
  {
    var r := InsertBy(x, ys, key, lt);
    if ys == [] {
    } else if lt(key(x), key(ys[0])) {
      assert r[1..] == ys;
      if key(x) == k {
        forall i | 0 <= i < |ys| ensures key(ys[i]) != k {
          assert i == 0 || !lt(key(ys[i]), key(ys[0]));
        }
        WithKeyNone(ys, key, k);
      }
    } else {
      InsertByWithKey(x, ys[1..], key, lt, k);
      assert r[1..] == InsertBy(x, ys[1..], key, lt);
    }
  }

  /** What `list.sort(key=key)` guarantees: the result is ordered by key, is
      a permutation of the input, and elements with equal keys keep their
      relative order. */
  lemma StableSortBySpec<T, K(!new)>(xs: seq<T>, key: T -> K, lt: (K, K) -> bool)
    requires StrictTotalOrder(lt)
    ensures SortedBy(StableSortBy(xs, key, lt), key, lt)
    ensures multiset(StableSortBy(xs, key, lt)) == multiset(xs)
    ensures forall k :: WithKey(StableSortBy(xs, key, lt), key, k) == WithKey(xs, key, k)
  {
    StableSortBySorted(xs, key, lt);
    StableSortByMultiset(xs, key, lt);
    forall k ensures WithKey(StableSortBy(xs, key, lt), key, k) == WithKey(xs, key, k) {
      StableSortByWithKey(xs, key, lt, k);
    }
  }

  lemma {:induction false} StableSortBySorted<T, K(!new)>(xs: seq<T>, key: T -> K, lt: (K, K) -> bool)
    requires StrictTotalOrder(lt)
    ensures SortedBy(StableSortBy(xs, key, lt), key, lt)
  {
    if xs != [] {
      StableSortBySorted(xs[..|xs| - 1], key, lt);
      InsertBySorted(xs[|xs| - 1], StableSortBy(xs[..|xs| - 1], key, lt), key, lt);
    }
  }

  lemma {:induction false} StableSortByMultiset<T, K>(xs: seq<T>, key: T -> K, lt: (K, K) -> bool)
    ensures multiset(StableSortBy(xs, key, lt)) == multiset(xs)
  {
    if xs != [] {
      var init, last := xs[..|xs| - 1], xs[|xs| - 1];
      StableSortByMultiset(init, key, lt);
      InsertByMultiset(last, StableSortBy(init, key, lt), key, lt);
      assert xs == init + [last];
    }
  }

  lemma {:induction false} StableSortByWithKey<T, K(!new)>(xs: seq<T>, key: T -> K, lt: (K, K) -> bool, k: K)
    requires StrictTotalOrder(lt)
    ensures WithKey(StableSortBy(xs, key, lt), key, k) == WithKey(xs, key, k)
  {
    if xs != [] {
      var init, last := xs[..|xs| - 1], xs[|xs| - 1];
      var sorted := StableSortBy(init, key, lt);
      StableSortByWithKey(init, key, lt, k);
      StableSortBySorted(init, key, lt);
      InsertByWithKey(last, sorted, key, lt, k);
      assert xs == init + [last];
      WithKeyAppend(init, [last], key, k);
      assert WithKey([last], key, k) == (if key(last) == k then [last] else []) + WithKey([last][1..], key, k);
    }
  }
}
