/** First-occurrence de-duplication by a key, the rule both
    `remove_duplicates` (backend/test_app.py) and
    `_deduplicate_transactions` (backend/bank_parsers.py) implement with a
    `seen` set. */
module Dedup {

  /** The keys of the elements of `xs`. */
  function KeysOf<T, K(==)>(xs: seq<T>, key: T -> K): (ks: set<K>)
    ensures forall i :: 0 <= i < |xs| ==> key(xs[i]) in ks
    ensures forall k :: k in ks ==> exists i :: 0 <= i < |xs| && key(xs[i]) == k
  {
    set i | 0 <= i < |xs| :: key(xs[i])
  }

  /** Appending an element adds its key. */
  lemma {:induction false} KeysOfSnoc<T, K>(xs: seq<T>, x: T, key: T -> K)
    ensures KeysOf(xs + [x], key) == KeysOf(xs, key) + {key(x)}
  {
    var a, b := KeysOf(xs + [x], key), KeysOf(xs, key) + {key(x)};
    forall k | k in a ensures k in b {
      var i :| 0 <= i < |xs| + 1 && key((xs + [x])[i]) == k;
      if i < |xs| { assert (xs + [x])[i] == xs[i]; }
    }
    forall k | k in b ensures k in a {
      if k == key(x) {
        assert (xs + [x])[|xs|] == x;
      } else {
        var i :| 0 <= i < |xs| && key(xs[i]) == k;
        assert (xs + [x])[i] == xs[i];
      }
    }
  }

  /** The elements of `xs` whose key has not occurred earlier, in order. */
  function FirstByKey<T, K(==)>(xs: seq<T>, key: T -> K): (r: seq<T>)
    ensures |r| <= |xs|
  {
    if xs == [] then []
    else
      var p := FirstByKey(xs[..|xs| - 1], key);
      if key(xs[|xs| - 1]) in KeysOf(p, key) then p else p + [xs[|xs| - 1]]
  }

  /** No two elements share a key. */
  predicate DistinctKeys<T, K(==)>(xs: seq<T>, key: T -> K) {
    forall i, j :: 0 <= i < j < |xs| ==> key(xs[i]) != key(xs[j])
  }

  /** `xs[i]` is the first element of `xs` with its key. */
  predicate FirstOfKey<T, K(==)>(xs: seq<T>, key: T -> K, i: nat)
    requires i < |xs|
  {
    key(xs[i]) !in KeysOf(xs[..i], key)
  }

  /** Every key of the input survives, and only those keys. */
  lemma {:induction false} FirstByKeyKeys<T, K>(xs: seq<T>, key: T -> K)
    ensures KeysOf(FirstByKey(xs, key), key) == KeysOf(xs, key)
  {
    if xs != [] {
      var init := xs[..|xs| - 1];
      FirstByKeyKeys(init, key);
      var p := FirstByKey(init, key);
      assert xs == init + [xs[|xs| - 1]];
      KeysOfSnoc(init, xs[|xs| - 1], key);
      KeysOfSnoc(p, xs[|xs| - 1], key);
    }
  }

  /** The survivors have pairwise different keys. */
  lemma {:induction false} FirstByKeyDistinct<T, K>(xs: seq<T>, key: T -> K)
    ensures DistinctKeys(FirstByKey(xs, key), key)
  {
    if xs != [] {
      FirstByKeyDistinct(xs[..|xs| - 1], key);
    }
  }

  /** Every survivor is an element of the input. */
  lemma {:induction false} FirstByKeySubset<T, K>(xs: seq<T>, key: T -> K)
    ensures forall t :: t in FirstByKey(xs, key) ==> t in xs
  {
    if xs != [] {
      var init := xs[..|xs| - 1];
      FirstByKeySubset(init, key);
      assert forall t :: t in init ==> t in xs;
    }
  }

  /** An element is kept exactly when no earlier element has its key, and
      the kept elements keep their relative order: the output is the input
      with the repeated keys dropped. */
  lemma {:induction false} FirstByKeyFirsts<T, K>(xs: seq<T>, key: T -> K)
    ensures FirstByKey(xs, key) == Firsts(xs, key, |xs|)
  {
    if xs != [] {
      var n := |xs| - 1;
      var init := xs[..n];
      FirstByKeyFirsts(init, key);
      FirstsSlice(xs, key, n, n);
      FirstByKeyKeys(init, key);
    }
  }

  /** The elements among the first `n` of `xs` that are first of their key, in order. */
  function Firsts<T, K(==)>(xs: seq<T>, key: T -> K, n: nat): seq<T>
    requires n <= |xs|
  {
    if n == 0 then []
    else Firsts(xs, key, n - 1) + if FirstOfKey(xs, key, n - 1) then [xs[n - 1]] else []
  }

  /** `Firsts` up to `m` only looks at the first `m` elements. */
  lemma {:induction false} FirstsSlice<T, K>(xs: seq<T>, key: T -> K, m: nat, n: nat)
    requires m <= n <= |xs|
    ensures Firsts(xs[..n], key, m) == Firsts(xs, key, m)
    decreases m
  {
    if m > 0 {
      FirstsSlice(xs, key, m - 1, n);
      assert xs[..n][..m - 1] == xs[..m - 1];
    }
  }

  /** Input that has no repeated key comes back unchanged. */
  lemma {:induction false} FirstByKeyDistinctInput<T, K>(xs: seq<T>, key: T -> K)
    requires DistinctKeys(xs, key)
    ensures FirstByKey(xs, key) == xs
  {
    if xs != [] {
      var init := xs[..|xs| - 1];
      FirstByKeyDistinctInput(init, key);
      FirstByKeyKeys(init, key);
      assert init + [xs[|xs| - 1]] == xs;
    }
  }

  /** De-duplicating twice is de-duplicating once. */
  lemma {:induction false} FirstByKeyIdempotent<T, K>(xs: seq<T>, key: T -> K)
    ensures FirstByKey(FirstByKey(xs, key), key) == FirstByKey(xs, key)
  {
    FirstByKeyDistinct(xs, key);
    FirstByKeyDistinctInput(FirstByKey(xs, key), key);
  }
}
