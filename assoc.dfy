/** Python dictionaries filled by assignment in a loop: `d[k] = v` for each
    pair in turn, so a later pair for the same key overwrites an earlier
    one. */
module Assoc {
  import opened Seqs

  /** The dictionary after assigning the pairs in order. */
  function MapOf<K, V>(kvs: seq<(K, V)>): map<K, V> {
    if kvs == [] then map[]
    else MapOf(kvs[..|kvs| - 1])[kvs[|kvs| - 1].0 := kvs[|kvs| - 1].1]
  }

  /** A key is present exactly when some pair assigns it. */
  lemma {:induction false} MapOfKeys<K, V>(kvs: seq<(K, V)>, k: K)
    ensures k in MapOf(kvs) <==> exists i :: 0 <= i < |kvs| && kvs[i].0 == k
  {
    if kvs != [] {
      var init := kvs[..|kvs| - 1];
      MapOfKeys(init, k);
      if exists i :: 0 <= i < |init| && init[i].0 == k {
        var i :| 0 <= i < |init| && init[i].0 == k;
        assert kvs[i] == init[i];
      }
      if exists i :: 0 <= i < |kvs| && kvs[i].0 == k {
        var i :| 0 <= i < |kvs| && kvs[i].0 == k;
        if i < |init| {
          assert init[i] == kvs[i];
        }
      }
    }
  }

  /** The value of a key is that of the last pair assigning it. */
  lemma {:induction false} MapOfLastWins<K, V>(kvs: seq<(K, V)>, i: nat)
    requires i < |kvs|
    requires forall j :: i < j < |kvs| ==> kvs[j].0 != kvs[i].0
    ensures kvs[i].0 in MapOf(kvs) && MapOf(kvs)[kvs[i].0] == kvs[i].1
  {
    var init := kvs[..|kvs| - 1];
    if i < |kvs| - 1 {
      forall j | i < j < |init| ensures init[j].0 != init[i].0 {
        assert init[j] == kvs[j];
      }
      MapOfLastWins(init, i);
    }
  }

  /** Assigning two runs of pairs is assigning the first, then letting the
      second override. */
  lemma {:induction false} MapOfAppend<K, V>(a: seq<(K, V)>, b: seq<(K, V)>)
    ensures MapOf(a + b) == MapOf(a) + MapOf(b)
    decreases |b|
  {
    if b == [] {
      assert a + b == a;
    } else {
      assert (a + b)[..|a + b| - 1] == a + b[..|b| - 1];
      MapOfAppend(a, b[..|b| - 1]);
    }
  }

  /** One more assignment. */
  lemma MapOfSnoc<K, V>(kvs: seq<(K, V)>, kv: (K, V))
    ensures MapOf(kvs + [kv]) == MapOf(kvs)[kv.0 := kv.1]
  {
    assert (kvs + [kv])[..|kvs|] == kvs;
  }

  /** Assigning into a merged dictionary assigns into the overriding side. */
  lemma UnionUpdate<K, V>(a: map<K, V>, b: map<K, V>, k: K, v: V)
    ensures (a + b)[k := v] == a + b[k := v]
  {
  }

  // ---------------------------------------------------------------------
  // Iteration order: a dictionary yields its keys in the order they were
  // first inserted, and a later assignment to a present key keeps its place.

  /** The keys the pairs assign, in assignment order. */
  function KeysOf<K, V>(kvs: seq<(K, V)>): seq<K> {
    if kvs == [] then [] else KeysOf(kvs[..|kvs| - 1]) + [kvs[|kvs| - 1].0]
  }

  /** The order in which `d.items()` yields the keys of `MapOf(kvs)`. */
  function KeyOrder<K(==), V>(kvs: seq<(K, V)>): seq<K> {
    Dedupe(KeysOf(kvs))
  }

  lemma {:induction false} KeysOfMembers<K, V>(kvs: seq<(K, V)>, k: K)
    ensures k in KeysOf(kvs) <==> k in MapOf(kvs)
  {
    if kvs != [] {
      KeysOfMembers(kvs[..|kvs| - 1], k);
    }
  }

  /** One more assignment appends its key exactly when the key is new. */
  lemma KeyOrderSnoc<K, V>(kvs: seq<(K, V)>, kv: (K, V))
    ensures KeyOrder(kvs + [kv]) == if kv.0 in MapOf(kvs) then KeyOrder(kvs) else KeyOrder(kvs) + [kv.0]
  {
    assert (kvs + [kv])[..|kvs|] == kvs;
    assert KeysOf(kvs + [kv]) == KeysOf(kvs) + [kv.0];
    DedupeSnoc(KeysOf(kvs), kv.0);
    KeysOfMembers(kvs, kv.0);
  }

  /** The iteration order lists every key of the dictionary once, and no
      other, ordered by each key's first assignment. */
  lemma KeyOrderSpec<K, V>(kvs: seq<(K, V)>)
    ensures Distinct(KeyOrder(kvs))
    ensures forall k :: k in KeyOrder(kvs) <==> k in MapOf(kvs)
    ensures forall k :: k in KeyOrder(kvs) <==> k in KeysOf(kvs)
    ensures forall i, j :: 0 <= i < j < |KeyOrder(kvs)| ==>
              FirstIndex(KeysOf(kvs), KeyOrder(kvs)[i]) < FirstIndex(KeysOf(kvs), KeyOrder(kvs)[j])
  {
    DedupeSpec(KeysOf(kvs));
    forall k ensures k in KeyOrder(kvs) <==> k in MapOf(kvs) {
      KeysOfMembers(kvs, k);
    }
  }

  /** The order after one more assignment, for a dictionary built as
      `before` followed by `done`. */
  lemma OrderStep<K, V>(before: seq<(K, V)>, done: seq<(K, V)>, kv: (K, V))
    ensures KeyOrder(before + (done + [kv])) ==
              if kv.0 in MapOf(before) + MapOf(done) then KeyOrder(before + done) else KeyOrder(before + done) + [kv.0]
  {
    MapOfAppend(before, done);
    KeyOrderSnoc(before + done, kv);
    assert before + (done + [kv]) == before + done + [kv];
  }
}
