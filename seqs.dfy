/** The list-building loop the scripts share: walk a sequence, and append
    what each element yields, if anything. */
module Seqs {
  import opened Text

  /** The results of `f` on the elements of `xs` that yield one, in order. */
  function FilterMap<T, U>(xs: seq<T>, f: T -> Option<U>): seq<U> {
    if xs == [] then []
    else
      FilterMap(xs[..|xs| - 1], f)
      + match f(xs[|xs| - 1]) case Some(u) => [u] case None => []
  }

  /** The results of a concatenation are those of its parts, in order. */
  lemma {:induction false} FilterMapAppend<T, U>(a: seq<T>, b: seq<T>, f: T -> Option<U>)
    ensures FilterMap(a + b, f) == FilterMap(a, f) + FilterMap(b, f)
    decreases |b|
  {
    if b == [] {
      assert a + b == a;
    } else {
      assert (a + b)[..|a + b| - 1] == a + b[..|b| - 1];
      FilterMapAppend(a, b[..|b| - 1], f);
    }
  }

  /** One element yields its result, or nothing. */
  lemma FilterMapOne<T, U>(x: T, f: T -> Option<U>)
    ensures FilterMap([x], f) == match f(x) case Some(u) => [u] case None => []
  {
    assert [x][..0] == [];
  }

  /** Every result comes from some element, and every element that yields a
      result contributes it. */
  lemma {:induction false} FilterMapMembers<T, U>(xs: seq<T>, f: T -> Option<U>, u: U)
    ensures u in FilterMap(xs, f) <==> exists i :: 0 <= i < |xs| && f(xs[i]) == Some(u)
  {
    if xs != [] {
      var init, last := xs[..|xs| - 1], xs[|xs| - 1];
      var front := FilterMap(init, f);
      assert u in FilterMap(xs, f) <==> u in front || f(last) == Some(u) by {
        assert FilterMap(xs, f) == front + (if f(last).Some? then [f(last).value] else []);
      }
      assert u in front <==> exists i :: 0 <= i < |init| && f(init[i]) == Some(u) by {
        FilterMapMembers(init, f, u);
      }
      assert (exists i :: 0 <= i < |xs| && f(xs[i]) == Some(u))
             <==> (exists i :: 0 <= i < |init| && f(init[i]) == Some(u)) || f(last) == Some(u) by {
        if exists i :: 0 <= i < |init| && f(init[i]) == Some(u) {
          var i :| 0 <= i < |init| && f(init[i]) == Some(u);
          assert xs[i] == init[i];
        }
        if exists i :: 0 <= i < |xs| && f(xs[i]) == Some(u) {
          var i :| 0 <= i < |xs| && f(xs[i]) == Some(u);
          if i < |init| {
            assert init[i] == xs[i];
          }
        }
      }
    }
  }

  /** The same, by element rather than by position. */
  lemma FilterMapHas<T, U>(xs: seq<T>, f: T -> Option<U>, u: U)
    ensures u in FilterMap(xs, f) <==> exists x :: x in xs && f(x) == Some(u)
  {
    FilterMapMembers(xs, f, u);
    if u in FilterMap(xs, f) {
      var i :| 0 <= i < |xs| && f(xs[i]) == Some(u);
      assert xs[i] in xs;
    }
    if exists x :: x in xs && f(x) == Some(u) {
      var x :| x in xs && f(x) == Some(u);
      var i :| 0 <= i < |xs| && xs[i] == x;
    }
  }

  /** No more results than elements; exactly as many when every element
      yields one. */
  lemma {:induction false} FilterMapLength<T, U>(xs: seq<T>, f: T -> Option<U>)
    ensures |FilterMap(xs, f)| <= |xs|
    ensures (forall i :: 0 <= i < |xs| ==> f(xs[i]).Some?) ==> |FilterMap(xs, f)| == |xs|
  {
    if xs != [] {
      FilterMapLength(xs[..|xs| - 1], f);
    }
  }

  /** One more step of the loop: the element at `k` adds its result. */
  lemma FilterMapStep<T, U>(xs: seq<T>, k: nat, f: T -> Option<U>)
    requires k < |xs|
    ensures FilterMap(xs[..k + 1], f) == FilterMap(xs[..k], f) + match f(xs[k]) case Some(u) => [u] case None => []
  {
    assert xs[..k + 1][..k] == xs[..k];
  }

  lemma FilterMapWhole<T, U>(xs: seq<T>, f: T -> Option<U>)
    ensures FilterMap(xs[..|xs|], f) == FilterMap(xs, f)
  {
    assert xs[..|xs|] == xs;
  }

  /** An element that maps to itself everywhere leaves the sequence as it is. */
  lemma {:induction false} FilterMapIdentity<T>(xs: seq<T>, f: T -> Option<T>)
    requires forall i :: 0 <= i < |xs| ==> f(xs[i]) == Some(xs[i])
    ensures FilterMap(xs, f) == xs
  {
    if xs != [] {
      var init := xs[..|xs| - 1];
      FilterMapIdentity(init, f);
      assert xs == init + [xs[|xs| - 1]];
    }
  }

  // ---------------------------------------------------------------------
  // Concatenating the results of each element

  /** The results of `f` on every element, concatenated in order. */
  function ConcatMap<T, U>(xs: seq<T>, f: T -> seq<U>): seq<U> {
    if xs == [] then [] else ConcatMap(xs[..|xs| - 1], f) + f(xs[|xs| - 1])
  }

  lemma ConcatMapStep<T, U>(xs: seq<T>, k: nat, f: T -> seq<U>)
    requires k < |xs|
    ensures ConcatMap(xs[..k + 1], f) == ConcatMap(xs[..k], f) + f(xs[k])
  {
    assert xs[..k + 1][..k] == xs[..k];
  }

  lemma ConcatMapWhole<T, U>(xs: seq<T>, f: T -> seq<U>)
    ensures ConcatMap(xs[..|xs|], f) == ConcatMap(xs, f)
  {
    assert xs[..|xs|] == xs;
  }

  /** The results of a concatenation are those of its parts, in order. */
  lemma {:induction false} ConcatMapAppend<T, U>(a: seq<T>, b: seq<T>, f: T -> seq<U>)
    ensures ConcatMap(a + b, f) == ConcatMap(a, f) + ConcatMap(b, f)
    decreases |b|
  {
    if b == [] {
      assert a + b == a;
    } else {
      assert (a + b)[..|a + b| - 1] == a + b[..|b| - 1];
      ConcatMapAppend(a, b[..|b| - 1], f);
    }
  }

  /** Every result comes from the results of some element. */
  lemma {:induction false} ConcatMapMembers<T, U>(xs: seq<T>, f: T -> seq<U>, u: U)
    ensures u in ConcatMap(xs, f) <==> exists i :: 0 <= i < |xs| && u in f(xs[i])
  {
    if xs != [] {
      var init := xs[..|xs| - 1];
      ConcatMapMembers(init, f, u);
      if exists i :: 0 <= i < |init| && u in f(init[i]) {
        var i :| 0 <= i < |init| && u in f(init[i]);
        assert xs[i] == init[i];
      }
      if exists i :: 0 <= i < |xs| && u in f(xs[i]) {
        var i :| 0 <= i < |xs| && u in f(xs[i]);
        if i < |init| {
          assert init[i] == xs[i];
        }
      }
    }
  }

  // ---------------------------------------------------------------------
  // Keeping first occurrences

  predicate Distinct<T(==)>(xs: seq<T>) {
    forall i, j :: 0 <= i < j < |xs| ==> xs[i] != xs[j]
  }

  /** Where `x` first occurs in `xs`. */
  function FirstIndex<T(==)>(xs: seq<T>, x: T): (r: nat)
    requires x in xs
    ensures r < |xs| && xs[r] == x
    ensures forall i :: 0 <= i < r ==> xs[i] != x
  {
    if xs[0] == x then 0
    else
      assert x in xs[1..];
      1 + FirstIndex(xs[1..], x)
  }

  lemma FirstIndexOf<T>(xs: seq<T>, x: T, r: nat)
    requires r < |xs| && xs[r] == x
    requires forall i :: 0 <= i < r ==> xs[i] != x
    ensures FirstIndex(xs, x) == r
  {
    var f := FirstIndex(xs, x);
    assert !(f < r) && !(r < f);
  }

  /** Occurring in a prefix, an element first occurs at the same place in
      the whole. */
  lemma FirstIndexInPrefix<T>(xs: seq<T>, k: nat, x: T)
    requires k <= |xs| && x in xs[..k]
    ensures FirstIndex(xs, x) == FirstIndex(xs[..k], x)
  {
    var r := FirstIndex(xs[..k], x);
    assert xs[r] == xs[..k][r];
    forall i | 0 <= i < r ensures xs[i] != x {
      assert xs[i] == xs[..k][i];
    }
    FirstIndexOf(xs, x, r);
  }

  /** The elements of `xs` without repeats, each kept where it first occurs:
      the `seen` set idiom. */
  function Dedupe<T(==)>(xs: seq<T>): seq<T> {
    if xs == [] then []
    else
      var init := xs[..|xs| - 1];
      if xs[|xs| - 1] in init then Dedupe(init) else Dedupe(init) + [xs[|xs| - 1]]
  }

  lemma DedupeStep<T>(xs: seq<T>, k: nat)
    requires k < |xs|
    ensures Dedupe(xs[..k + 1]) == if xs[k] in xs[..k] then Dedupe(xs[..k]) else Dedupe(xs[..k]) + [xs[k]]
    ensures forall x :: x in xs[..k + 1] <==> x in xs[..k] || x == xs[k]
  {
    assert xs[..k + 1] == xs[..k] + [xs[k]];
  }

  /** One more element: it is kept exactly when it has not been seen. */
  lemma DedupeSnoc<T>(xs: seq<T>, x: T)
    ensures Dedupe(xs + [x]) == if x in xs then Dedupe(xs) else Dedupe(xs) + [x]
  {
    assert (xs + [x])[..|xs|] == xs;
  }

  lemma DedupeWhole<T>(xs: seq<T>)
    ensures Dedupe(xs[..|xs|]) == Dedupe(xs)
  {
    assert xs[..|xs|] == xs;
  }

  /** What the idiom guarantees: no repeats, every element survives, and the
      survivors keep the order of their first occurrences. */
  lemma {:induction false} DedupeSpec<T>(xs: seq<T>)
    ensures Distinct(Dedupe(xs))
    ensures forall x :: x in Dedupe(xs) <==> x in xs
    ensures forall i, j :: 0 <= i < j < |Dedupe(xs)| ==>
              FirstIndex(xs, Dedupe(xs)[i]) < FirstIndex(xs, Dedupe(xs)[j])
  {
    if xs != [] {
      var init, last := xs[..|xs| - 1], xs[|xs| - 1];
      var d := Dedupe(init);
      DedupeSpec(init);
      assert xs == init + [last];
      forall x | x in init ensures FirstIndex(xs, x) == FirstIndex(init, x) {
        FirstIndexInPrefix(xs, |xs| - 1, x);
      }
      if last !in init {
        var r := d + [last];
        FirstIndexOf(xs, last, |xs| - 1);
        forall i, j | 0 <= i < j < |r| ensures FirstIndex(xs, r[i]) < FirstIndex(xs, r[j]) {
          assert r[i] == d[i] && d[i] in d;
          if j < |d| {
            assert r[j] == d[j];
          }
        }
      } else {
        forall i, j | 0 <= i < j < |d| ensures FirstIndex(xs, d[i]) < FirstIndex(xs, d[j]) {
          assert d[i] in init && d[j] in init;
        }
      }
    }
  }

  /** A sequence without repeats holds each element at most once. */
  lemma {:induction false} DistinctMultiset<T>(xs: seq<T>)
    ensures Distinct(xs) <==> forall x :: multiset(xs)[x] <= 1
  {
    if xs != [] {
      var h, t := xs[0], xs[1..];
      DistinctMultiset(t);
      assert xs == [h] + t;
      assert multiset(xs) == multiset{h} + multiset(t);
      if Distinct(xs) {
        assert Distinct(t) by {
          forall i, j | 0 <= i < j < |t| ensures t[i] != t[j] {
            assert t[i] == xs[i + 1] && t[j] == xs[j + 1];
          }
        }
        forall j | 0 <= j < |t| ensures t[j] != h {
          assert t[j] == xs[j + 1];
        }
      }
      if forall x :: multiset(xs)[x] <= 1 {
        forall x ensures multiset(t)[x] <= 1 {
          assert multiset(xs)[x] >= multiset(t)[x];
        }
        assert multiset(xs)[h] == 1 + multiset(t)[h];
        assert h !in multiset(t);
        forall i, j | 0 <= i < j < |xs| ensures xs[i] != xs[j] {
          if i == 0 {
            assert xs[j] == t[j - 1] && xs[j] in t;
          } else {
            assert xs[i] == t[i - 1] && xs[j] == t[j - 1];
          }
        }
      }
    }
  }

  lemma AppendAssoc<T>(a: seq<T>, b: seq<T>, c: seq<T>)
    ensures a + b + c == a + (b + c)
  {
  }

  // ---------------------------------------------------------------------
  // Loops that update a state element by element

  /** The state after applying `f` to each element in turn. */
  function FoldL<T, A>(xs: seq<T>, a: A, f: (A, T) -> A): A {
    if xs == [] then a else f(FoldL(xs[..|xs| - 1], a, f), xs[|xs| - 1])
  }

  lemma FoldLStep<T, A>(xs: seq<T>, k: nat, a: A, f: (A, T) -> A)
    requires k < |xs|
    ensures FoldL(xs[..k + 1], a, f) == f(FoldL(xs[..k], a, f), xs[k])
  {
    assert xs[..k + 1][..k] == xs[..k];
  }

  lemma FoldLWhole<T, A>(xs: seq<T>, a: A, f: (A, T) -> A)
    ensures FoldL(xs[..|xs|], a, f) == FoldL(xs, a, f)
  {
    assert xs[..|xs|] == xs;
  }

  lemma FoldLSnoc<T, A>(xs: seq<T>, x: T, a: A, f: (A, T) -> A)
    ensures FoldL(xs + [x], a, f) == f(FoldL(xs, a, f), x)
  {
    assert (xs + [x])[..|xs|] == xs;
  }

  /** Folding a concatenation folds the second part from where the first
      left off. */
  lemma {:induction false} FoldLAppend<T, A>(xs: seq<T>, ys: seq<T>, a: A, f: (A, T) -> A)
    ensures FoldL(xs + ys, a, f) == FoldL(ys, FoldL(xs, a, f), f)
    decreases |ys|
  {
    if ys == [] {
      assert xs + ys == xs;
    } else {
      var init := ys[..|ys| - 1];
      assert xs + ys == (xs + init) + [ys[|ys| - 1]];
      FoldLSnoc(xs + init, ys[|ys| - 1], a, f);
      FoldLAppend(xs, init, a, f);
    }
  }

  /** The last element satisfying `p`, if any. */
  function LastWhere<T>(xs: seq<T>, p: T -> bool): Option<T> {
    if xs == [] then None
    else if p(xs[|xs| - 1]) then Some(xs[|xs| - 1])
    else LastWhere(xs[..|xs| - 1], p)
  }

  /** What `LastWhere` finds: an element satisfying `p` with none after it. */
  lemma {:induction false} LastWhereSpec<T>(xs: seq<T>, p: T -> bool)
    ensures LastWhere(xs, p).None? <==> forall i :: 0 <= i < |xs| ==> !p(xs[i])
    ensures LastWhere(xs, p).Some? ==>
              exists i :: 0 <= i < |xs| && xs[i] == LastWhere(xs, p).value && p(xs[i])
                && forall j :: i < j < |xs| ==> !p(xs[j])
  {
    if xs != [] {
      var init := xs[..|xs| - 1];
      LastWhereSpec(init, p);
      if !p(xs[|xs| - 1]) {
        assert forall i :: 0 <= i < |init| ==> init[i] == xs[i];
        if LastWhere(init, p).Some? {
          var i :| 0 <= i < |init| && init[i] == LastWhere(init, p).value && p(init[i])
                   && forall j :: i < j < |init| ==> !p(init[j]);
          assert xs[i] == init[i];
        }
      }
    }
  }

  /** In a concatenation, the last match of the second part wins. */
  lemma {:induction false} LastWhereAppend<T>(a: seq<T>, b: seq<T>, p: T -> bool)
    ensures LastWhere(a + b, p) == if LastWhere(b, p).Some? then LastWhere(b, p) else LastWhere(a, p)
    decreases |b|
  {
    if b == [] {
      assert a + b == a;
    } else {
      assert (a + b)[..|a + b| - 1] == a + b[..|b| - 1];
      LastWhereAppend(a, b[..|b| - 1], p);
    }
  }
}
