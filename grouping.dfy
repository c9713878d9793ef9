/**
 * Grouping a sequence of contributions by key, as the pipeline does with a
 * JavaScript `Map` filled in one pass: the keys in order of first appearance
 * (a `Map` iterates in insertion order), the per-key sums of a numeric
 * column, and the first contribution of a key that passes a test.
 *
 * Everything is defined on the last element, so that a loop that has handled
 * `xs[..i]` extends its facts to `xs[..i + 1]` by unfolding once.
 */
module Grouping {
  import opened Records

  /** The distinct keys of `xs`, in order of first appearance. */
  function Keys<T, K(==)>(xs: seq<T>, key: T -> K): seq<K> {
    if xs == [] then []
    else
      var ks := Keys(xs[..|xs| - 1], key);
      var k := key(xs[|xs| - 1]);
      if k in ks then ks else ks + [k]
  }

  /** The sum of `val` over the contributions of key `k`. */
  function SumFor<T, K(==)>(xs: seq<T>, key: T -> K, val: T -> real, k: K): real {
    if xs == [] then 0.0
    else
      var x := xs[|xs| - 1];
      SumFor(xs[..|xs| - 1], key, val, k) + (if key(x) == k then val(x) else 0.0)
  }

  /** The sum of `val` over all of `xs`. */
  function Total<T>(xs: seq<T>, val: T -> real): real {
    if xs == [] then 0.0 else Total(xs[..|xs| - 1], val) + val(xs[|xs| - 1])
  }

  /** The first contribution of key `k` that passes `ok`, if any. */
  function First<T, K(==)>(xs: seq<T>, key: T -> K, ok: T -> bool, k: K): Option<T> {
    if xs == [] then None
    else
      var x := xs[|xs| - 1];
      var earlier := First(xs[..|xs| - 1], key, ok, k);
      if earlier.Some? then earlier else if key(x) == k && ok(x) then Some(x) else None
  }

  /** The sum, over a list of keys, of each key's sum of `val`. */
  function SumOverKeys<T, K(==)>(ks: seq<K>, xs: seq<T>, key: T -> K, val: T -> real): real {
    if ks == [] then 0.0
    else SumOverKeys(ks[..|ks| - 1], xs, key, val) + SumFor(xs, key, val, ks[|ks| - 1])
  }

  ghost predicate Distinct<K>(ks: seq<K>) {
    forall a, b :: 0 <= a < b < |ks| ==> ks[a] != ks[b]
  }

  // One-step unfoldings, used by loops that extend `xs` at the end.

  lemma KeysSnoc<T, K>(xs: seq<T>, x: T, key: T -> K)
    ensures Keys(xs + [x], key) == if key(x) in Keys(xs, key) then Keys(xs, key) else Keys(xs, key) + [key(x)]
  {
    assert (xs + [x])[..|xs|] == xs;
  }

  lemma SumForSnoc<T, K>(xs: seq<T>, x: T, key: T -> K, val: T -> real, k: K)
    ensures SumFor(xs + [x], key, val, k) == SumFor(xs, key, val, k) + (if key(x) == k then val(x) else 0.0)
  {
    assert (xs + [x])[..|xs|] == xs;
  }

  lemma TotalSnoc<T>(xs: seq<T>, x: T, val: T -> real)
    ensures Total(xs + [x], val) == Total(xs, val) + val(x)
  {
    assert (xs + [x])[..|xs|] == xs;
  }

  lemma FirstSnoc<T, K>(xs: seq<T>, x: T, key: T -> K, ok: T -> bool, k: K)
    ensures First(xs + [x], key, ok, k) ==
      if First(xs, key, ok, k).Some? then First(xs, key, ok, k)
      else if key(x) == k && ok(x) then Some(x) else None
  {
    assert (xs + [x])[..|xs|] == xs;
  }

  /**
   * The key list holds each key of `xs` exactly once: it has no repeats, and
   * a key is in it exactly when some contribution carries that key.
   */
  lemma {:induction false} KeysSpec<T, K>(xs: seq<T>, key: T -> K)
    ensures Distinct(Keys(xs, key))
    ensures forall k :: k in Keys(xs, key) <==> exists i :: 0 <= i < |xs| && key(xs[i]) == k
  {
    if xs != [] {
      var init, x := xs[..|xs| - 1], xs[|xs| - 1];
      KeysSpec(init, key);
      assert xs == init + [x];
      KeysSnoc(init, x, key);
      forall k
        ensures k in Keys(xs, key) <==> exists i :: 0 <= i < |xs| && key(xs[i]) == k
      {
        if k in Keys(init, key) {
          var i :| 0 <= i < |init| && key(init[i]) == k;
          assert key(xs[i]) == k;
        }
        if exists i :: 0 <= i < |xs| && key(xs[i]) == k {
          var i :| 0 <= i < |xs| && key(xs[i]) == k;
          if i < |init| {
            assert key(init[i]) == k;
          }
        }
      }
    }
  }

  /** A key without contributions sums to zero. */
  lemma {:induction false} SumForAbsent<T, K>(xs: seq<T>, key: T -> K, val: T -> real, k: K)
    requires k !in Keys(xs, key)
    ensures SumFor(xs, key, val, k) == 0.0
  {
    if xs != [] {
      var init, x := xs[..|xs| - 1], xs[|xs| - 1];
      assert xs == init + [x];
      KeysSnoc(init, x, key);
      SumForAbsent(init, key, val, k);
    }
  }

  /** A key has a first contribution exactly when it is one of the keys. */
  lemma {:induction false} FirstOfKey<T, K>(xs: seq<T>, key: T -> K, k: K)
    ensures First(xs, key, _ => true, k).Some? <==> k in Keys(xs, key)
    ensures First(xs, key, _ => true, k).Some? ==> key(First(xs, key, _ => true, k).value) == k
  {
    if xs != [] {
      var init, x := xs[..|xs| - 1], xs[|xs| - 1];
      assert xs == init + [x];
      KeysSnoc(init, x, key);
      FirstSnoc(init, x, key, _ => true, k);
      FirstOfKey(init, key, k);
    }
  }

  /** Adding one contribution to the sums of distinct keys adds its value once, if its key is listed. */
  lemma {:induction false} SumOverKeysSnoc<T, K>(ks: seq<K>, xs: seq<T>, x: T, key: T -> K, val: T -> real)
    requires Distinct(ks)
    ensures SumOverKeys(ks, xs + [x], key, val) ==
      SumOverKeys(ks, xs, key, val) + (if key(x) in ks then val(x) else 0.0)
  {
    if ks != [] {
      var init, k := ks[..|ks| - 1], ks[|ks| - 1];
      assert ks == init + [k];
      SumOverKeysSnoc(init, xs, x, key, val);
      SumForSnoc(xs, x, key, val, k);
    }
  }

  /**
   * Grouping conserves the total: the per-key sums, added over all keys,
   * give the sum over every contribution.
   */
  lemma {:induction false} GroupingConserves<T, K>(xs: seq<T>, key: T -> K, val: T -> real)
    ensures SumOverKeys(Keys(xs, key), xs, key, val) == Total(xs, val)
  {
    if xs != [] {
      var init, x := xs[..|xs| - 1], xs[|xs| - 1];
      assert xs == init + [x];
      var ks := Keys(init, key);
      GroupingConserves(init, key, val);
      KeysSpec(init, key);
      KeysSnoc(init, x, key);
      TotalSnoc(init, x, val);
      SumOverKeysSnoc(ks, init, x, key, val);
      if key(x) !in ks {
        SumForAbsent(init, key, val, key(x));
        SumForSnoc(init, x, key, val, key(x));
        assert (ks + [key(x)])[..|ks|] == ks;
      }
    }
  }

  /** Sums over a concatenation add up. */
  lemma {:induction false} SumForAppend<T, K>(xs: seq<T>, ys: seq<T>, key: T -> K, val: T -> real, k: K)
    ensures SumFor(xs + ys, key, val, k) == SumFor(xs, key, val, k) + SumFor(ys, key, val, k)
  {
    if ys != [] {
      var init, y := ys[..|ys| - 1], ys[|ys| - 1];
      assert xs + ys == (xs + init) + [y];
      SumForAppend(xs, init, key, val, k);
      SumForSnoc(xs + init, y, key, val, k);
      SumForSnoc(init, y, key, val, k);
      assert ys == init + [y];
    } else {
      assert xs + ys == xs;
    }
  }

  lemma {:induction false} TotalAppend<T>(xs: seq<T>, ys: seq<T>, val: T -> real)
    ensures Total(xs + ys, val) == Total(xs, val) + Total(ys, val)
  {
    if ys != [] {
      var init, y := ys[..|ys| - 1], ys[|ys| - 1];
      assert xs + ys == (xs + init) + [y];
      TotalAppend(xs, init, val);
      TotalSnoc(xs + init, y, val);
      TotalSnoc(init, y, val);
      assert ys == init + [y];
    } else {
      assert xs + ys == xs;
    }
  }

  /** Contributions whose value is zero add nothing to any key. */
  lemma {:induction false} SumForZero<T, K>(xs: seq<T>, key: T -> K, val: T -> real, k: K)
    requires forall i :: 0 <= i < |xs| ==> val(xs[i]) == 0.0
    ensures SumFor(xs, key, val, k) == 0.0
  {
    if xs != [] {
      SumForZero(xs[..|xs| - 1], key, val, k);
    }
  }

  lemma {:induction false} TotalZero<T>(xs: seq<T>, val: T -> real)
    requires forall i :: 0 <= i < |xs| ==> val(xs[i]) == 0.0
    ensures Total(xs, val) == 0.0
  {
    if xs != [] {
      TotalZero(xs[..|xs| - 1], val);
    }
  }
}
